/** Totals per logical module: every record is in one module, and nothing is lost or counted twice. */
module Modules {
  import opened Inventory

  datatype Module = Module(key: Key, tensors: nat, parameters: int, bytes: int, candidate: bool, replicated: bool)

  /** The records of one module among the first `n`, in their order. */
  function Members(records: seq<Record>, key: Key, n: nat): (members: seq<Record>)
    requires n <= |records|
    ensures |members| <= n && forall r :: r in members ==> r.traits.key == key
  {
    if n == 0 then [] else
      var before := Members(records, key, n - 1);
      if records[n - 1].traits.key == key then before + [records[n - 1]] else before
  }

  function Sum(records: seq<Record>, measure: Record -> int, n: nat): int
    requires n <= |records|
  {
    if n == 0 then 0 else Sum(records, measure, n - 1) + measure(records[n - 1])
  }

  function One(r: Record): int {
    1
  }

  function Parameters(r: Record): int {
    r.parameters
  }

  function Bytes(r: Record): int {
    r.bytes
  }

  predicate Distinct(keys: seq<Key>) {
    forall i, j :: 0 <= i < j < |keys| ==> keys[i] != keys[j]
  }

  predicate Covers(keys: seq<Key>, records: seq<Record>, n: nat)
    requires n <= |records|
  {
    && (forall i :: 0 <= i < n ==> records[i].traits.key in keys)
    && (forall k :: k in keys ==> exists i :: 0 <= i < n && records[i].traits.key == k)
  }

  /** A module row says what its members add up to. */
  ghost predicate Summarizes(m: Module, members: seq<Record>) {
    && m.tensors == |members| && m.parameters == Sum(members, Parameters, |members|)
    && m.bytes == Sum(members, Bytes, |members|)
    && (m.candidate <==> exists r :: r in members && r.traits.candidate)
    && (m.replicated <==> forall r :: r in members ==> r.traits.replicated)
  }

  function KeysOf(modules: seq<Module>): (keys: seq<Key>)
    ensures |keys| == |modules| && forall j :: 0 <= j < |modules| ==> keys[j] == modules[j].key
  {
    seq(|modules|, j requires 0 <= j < |modules| => modules[j].key)
  }

  /** A module table: a row for every key that occurs, each summarizing its own members. */
  ghost predicate TableOf(modules: seq<Module>, records: seq<Record>) {
    && Distinct(KeysOf(modules)) && Covers(KeysOf(modules), records, |records|)
    && (forall j :: 0 <= j < |modules| ==> Summarizes(modules[j], Members(records, modules[j].key, |records|)))
  }

  // ----- Conservation -----

  /** What a measure adds up to over one key's members among the first `n` records. */
  function Share(records: seq<Record>, key: Key, measure: Record -> int, n: nat): int
    requires n <= |records|
  {
    var members := Members(records, key, n);
    Sum(members, measure, |members|)
  }

  /** The shares of the first `m` keys. */
  function OverKeys(records: seq<Record>, keys: seq<Key>, measure: Record -> int, n: nat, m: nat): int
    requires n <= |records| && m <= |keys|
  {
    if m == 0 then 0 else OverKeys(records, keys, measure, n, m - 1) + Share(records, keys[m - 1], measure, n)
  }

  predicate Among(keys: seq<Key>, key: Key, m: nat) {
    exists j :: 0 <= j < m && j < |keys| && keys[j] == key
  }

  lemma {:induction false} AmongNext(keys: seq<Key>, key: Key, m: nat)
    requires Distinct(keys) && m < |keys|
    ensures Among(keys, key, m + 1) <==> (Among(keys, key, m) || keys[m] == key)
    ensures !(Among(keys, key, m) && keys[m] == key)
  {
  }

  lemma {:induction false} SumJoined(a: seq<Record>, r: Record, measure: Record -> int, n: nat)
    requires n <= |a|
    ensures Sum(a + [r], measure, n) == Sum(a, measure, n)
  {
    if n > 0 {
      SumJoined(a, r, measure, n - 1);
    }
  }

  lemma {:induction false} MemberAdded(records: seq<Record>, key: Key, measure: Record -> int, n: nat)
    requires n < |records|
    ensures Share(records, key, measure, n + 1)
         == Share(records, key, measure, n) + if records[n].traits.key == key then measure(records[n]) else 0
  {
    var before := Members(records, key, n);
    SumJoined(before, records[n], measure, |before|);
  }

  /** A record adds its measure to its own key and to no other. */
  lemma {:induction false} OneKeyGrows(records: seq<Record>, keys: seq<Key>, measure: Record -> int, n: nat, m: nat)
    requires n < |records| && m <= |keys| && Distinct(keys)
    ensures OverKeys(records, keys, measure, n + 1, m)
         == OverKeys(records, keys, measure, n, m)
            + if Among(keys, records[n].traits.key, m) then measure(records[n]) else 0
  {
    hide Share, Distinct;
    if m > 0 {
      OneKeyGrows(records, keys, measure, n, m - 1);
      MemberAdded(records, keys[m - 1], measure, n);
      AmongNext(keys, records[n].traits.key, m - 1);
      hide Among;
    }
  }

  lemma {:induction false} NothingYet(records: seq<Record>, keys: seq<Key>, measure: Record -> int, m: nat)
    requires m <= |keys|
    ensures OverKeys(records, keys, measure, 0, m) == 0
  {
    if m > 0 {
      NothingYet(records, keys, measure, m - 1);
    }
  }

  /** Added up over the keys, a measure is what it is over the records. */
  lemma {:induction false} OverKeysIsSum(records: seq<Record>, keys: seq<Key>, measure: Record -> int, n: nat)
    requires n <= |records| && Distinct(keys) && forall i :: 0 <= i < n ==> records[i].traits.key in keys
    ensures OverKeys(records, keys, measure, n, |keys|) == Sum(records, measure, n)
  {
    hide OverKeys, Distinct;
    if n == 0 {
      NothingYet(records, keys, measure, |keys|);
    } else {
      OverKeysIsSum(records, keys, measure, n - 1);
      OneKeyGrows(records, keys, measure, n - 1, |keys|);
    }
  }

  function Total(modules: seq<Module>, column: Module -> int, n: nat): int
    requires n <= |modules|
  {
    if n == 0 then 0 else Total(modules, column, n - 1) + column(modules[n - 1])
  }

  function TensorColumn(m: Module): int {
    m.tensors
  }

  function ParameterColumn(m: Module): int {
    m.parameters
  }

  function ByteColumn(m: Module): int {
    m.bytes
  }

  lemma {:induction false} ColumnIs(modules: seq<Module>, records: seq<Record>, column: Module -> int,
                                    measure: Record -> int, n: nat)
    requires n <= |modules|
    requires forall j :: 0 <= j < n ==>
               column(modules[j]) == Share(records, modules[j].key, measure, |records|)
    ensures Total(modules, column, n) == OverKeys(records, KeysOf(modules), measure, |records|, n)
  {
    hide Share;
    if n > 0 {
      ColumnIs(modules, records, column, measure, n - 1);
    }
  }

  lemma {:induction false} CountIsSum(records: seq<Record>, n: nat)
    requires n <= |records|
    ensures Sum(records, One, n) == n
  {
    if n > 0 {
      CountIsSum(records, n - 1);
    }
  }

  /** The columns of a module table add up to the records' count, parameters and bytes. */
  lemma {:induction false} TotalsConserved(modules: seq<Module>, records: seq<Record>)
    requires TableOf(modules, records)
    ensures Total(modules, TensorColumn, |modules|) == |records|
    ensures Total(modules, ParameterColumn, |modules|) == Sum(records, Parameters, |records|)
    ensures Total(modules, ByteColumn, |modules|) == Sum(records, Bytes, |records|)
  {
    var keys, n := KeysOf(modules), |records|;
    forall j | 0 <= j < |modules|
      ensures modules[j].tensors == Share(records, modules[j].key, One, n)
    {
      var members := Members(records, modules[j].key, n);
      CountIsSum(members, |members|);
    }
    OverKeysIsSum(records, keys, One, n);
    OverKeysIsSum(records, keys, Parameters, n);
    OverKeysIsSum(records, keys, Bytes, n);
    CountIsSum(records, n);
    hide Members, OverKeys, Sum, Total, Distinct;
    ColumnIs(modules, records, TensorColumn, One, |modules|);
    ColumnIs(modules, records, ParameterColumn, Parameters, |modules|);
    ColumnIs(modules, records, ByteColumn, Bytes, |modules|);
  }

  // ----- Grouping -----

  /** The dictionary of the loop: for every key so far, its records so far, keys in order of first appearance. */
  ghost predicate Grouped(records: seq<Record>, n: nat, keys: seq<Key>, grouped: map<Key, seq<Record>>)
    requires n <= |records|
  {
    && Distinct(keys) && Covers(keys, records, n) && (forall k :: k in grouped <==> k in keys)
    && (forall k :: k in grouped ==> grouped[k] == Members(records, k, n))
  }

  lemma {:induction false} NoMembers(records: seq<Record>, key: Key, n: nat)
    requires n <= |records| && forall i :: 0 <= i < n ==> records[i].traits.key != key
    ensures Members(records, key, n) == []
  {
    if n > 0 {
      NoMembers(records, key, n - 1);
    }
  }

  lemma {:induction false} Joins(records: seq<Record>, n: nat, keys: seq<Key>, grouped: map<Key, seq<Record>>)
    requires n < |records| && Grouped(records, n, keys, grouped) && records[n].traits.key in grouped
    ensures var key := records[n].traits.key;
            Grouped(records, n + 1, keys, grouped[key := grouped[key] + [records[n]]])
  {
  }

  lemma {:induction false} Opens(records: seq<Record>, n: nat, keys: seq<Key>, grouped: map<Key, seq<Record>>)
    requires n < |records| && Grouped(records, n, keys, grouped) && records[n].traits.key !in grouped
    ensures var key := records[n].traits.key; Grouped(records, n + 1, keys + [key], grouped[key := [records[n]]])
  {
    NoMembers(records, records[n].traits.key, n);
  }

  method Group(records: seq<Record>) returns (keys: seq<Key>, grouped: map<Key, seq<Record>>)
    ensures Grouped(records, |records|, keys, grouped)
  {
    keys, grouped := [], map[];
    assert Grouped(records, 0, keys, grouped);
    hide Grouped;
    for i := 0 to |records|
      invariant Grouped(records, i, keys, grouped)
    {
      var key := records[i].traits.key;
      if key in grouped {
        Joins(records, i, keys, grouped);
        grouped := grouped[key := grouped[key] + [records[i]]];
      } else {
        Opens(records, i, keys, grouped);
        keys, grouped := keys + [key], grouped[key := [records[i]]];
      }
    }
  }

  method Summarize(key: Key, members: seq<Record>) returns (m: Module)
    ensures m.key == key && Summarizes(m, members)
  {
    var parameters, bytes, candidate, replicated := 0, 0, false, true;
    for i := 0 to |members|
      invariant parameters == Sum(members, Parameters, i) && bytes == Sum(members, Bytes, i)
      invariant candidate <==> exists j :: 0 <= j < i && members[j].traits.candidate
      invariant replicated <==> forall j :: 0 <= j < i ==> members[j].traits.replicated
    {
      parameters := parameters + members[i].parameters;
      bytes := bytes + members[i].bytes;
      candidate := candidate || members[i].traits.candidate;
      replicated := replicated && members[i].traits.replicated;
    }
    m := Module(key, |members|, parameters, bytes, candidate, replicated);
  }

  /** `aggregate_modules`, up to the order of the rows; `TotalsConserved` says what such a table adds up to. */
  method AggregateModules(records: seq<Record>) returns (modules: seq<Module>)
    ensures TableOf(modules, records)
  {
    var keys, grouped := Group(records);
    modules := [];
    hide Members, Summarizes, Distinct, Covers;
    for j := 0 to |keys|
      invariant |modules| == j && forall i :: 0 <= i < j ==> modules[i].key == keys[i]
      invariant forall i :: 0 <= i < j ==> Summarizes(modules[i], Members(records, modules[i].key, |records|))
    {
      var m := Summarize(keys[j], grouped[keys[j]]);
      modules := modules + [m];
    }
    assert KeysOf(modules) == keys;
  }
}
