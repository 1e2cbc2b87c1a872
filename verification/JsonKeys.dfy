/** JSON values with ordered object fields, and the key sorting of canonicalize.ts: a normal
    form of the value an object stands for, whatever the order its keys were written in. */
module JsonKeys {
  datatype Field = Field(key: string, value: Json)

  datatype Json =
    | Null
    | Bool(b: bool)
    | Num(n: real)
    | Str(s: string)
    | Arr(items: seq<Json>)
    | Obj(fields: seq<Field>)

  /** Falsy values are the ones `if (x)` skips. */
  predicate Truthy(j: Json) {
    j != Null && j != Bool(false) && j != Num(0.0) && j != Str("")
  }

  /** The order of Array.prototype.sort on strings: code unit by code unit. */
  predicate Before(a: string, b: string) {
    if b == [] then false
    else if a == [] then true
    else a[0] < b[0] || (a[0] == b[0] && Before(a[1..], b[1..]))
  }

  lemma {:induction false} BeforeTotal(a: string, b: string)
    ensures Before(a, b) || a == b || Before(b, a)
    ensures !(Before(a, b) && Before(b, a)) && !Before(a, a)
  {
    if a != [] && b != [] {
      BeforeTotal(a[1..], b[1..]);
      BeforeTotal(a[1..], a[1..]);
      if a[0] == b[0] && a[1..] == b[1..] {
        assert a == [a[0]] + a[1..] == b;
      }
    } else if a != [] {
      BeforeTotal(a[1..], a[1..]);
    }
  }

  lemma {:induction false} BeforeTrans(a: string, b: string, c: string)
    requires Before(a, b) && Before(b, c)
    ensures Before(a, c)
  {
    if a != [] && a[0] == b[0] == c[0] {
      BeforeTrans(a[1..], b[1..], c[1..]);
    }
  }

  // --------------------------------------------------------- sorted fields

  function Insert(f: Field, fs: seq<Field>): seq<Field> {
    if fs == [] || Before(f.key, fs[0].key) then [f] + fs else [fs[0]] + Insert(f, fs[1..])
  }

  function SortFields(fs: seq<Field>): seq<Field> {
    if fs == [] then [] else Insert(fs[0], SortFields(fs[1..]))
  }

  function SortKeys(j: Json): Json {
    match j
    case Arr(items) => Arr(seq(|items|, i requires 0 <= i < |items| => SortKeys(items[i])))
    case Obj(fields) =>
      Obj(SortFields(seq(|fields|, i requires 0 <= i < |fields| => Field(fields[i].key, SortKeys(fields[i].value)))))
    case _ => j
  }

  ghost predicate DistinctKeys(fs: seq<Field>) {
    forall i, j :: 0 <= i < j < |fs| ==> fs[i].key != fs[j].key
  }

  /** Every object in the value has distinct keys, as JavaScript objects do. */
  ghost predicate WellFormed(j: Json) {
    match j
    case Arr(items) => forall i :: 0 <= i < |items| ==> WellFormed(items[i])
    case Obj(fields) => DistinctKeys(fields) && forall i :: 0 <= i < |fields| ==> WellFormed(fields[i].value)
    case _ => true
  }

  /** What a JSON value stands for: objects are sets of members, their order is gone. */
  datatype Value =
    | VNull
    | VBool(b: bool)
    | VNum(n: real)
    | VStr(s: string)
    | VArr(items: seq<Value>)
    | VObj(members: set<Member>)

  datatype Member = Member(key: string, value: Value)

  ghost function Denote(j: Json): Value {
    match j
    case Null => VNull
    case Bool(b) => VBool(b)
    case Num(n) => VNum(n)
    case Str(s) => VStr(s)
    case Arr(items) => VArr(seq(|items|, i requires 0 <= i < |items| => Denote(items[i])))
    case Obj(fields) => VObj(set i | 0 <= i < |fields| :: Member(fields[i].key, Denote(fields[i].value)))
  }

  // ------------------------------------------------------ sorting is sorting

  ghost predicate Ascending(fs: seq<Field>) {
    forall i, j :: 0 <= i < j < |fs| ==> Before(fs[i].key, fs[j].key)
  }

  lemma {:induction false} InsertKeeps(f: Field, fs: seq<Field>)
    requires Ascending(fs) && forall i :: 0 <= i < |fs| ==> fs[i].key != f.key
    ensures Ascending(Insert(f, fs)) && |Insert(f, fs)| == |fs| + 1
    ensures forall g :: g in Insert(f, fs) <==> g == f || g in fs
  {
    if fs != [] {
      BeforeTotal(f.key, fs[0].key);
      if Before(f.key, fs[0].key) {
        forall i | 0 <= i < |fs| ensures Before(f.key, fs[i].key) {
          if i > 0 { BeforeTrans(f.key, fs[0].key, fs[i].key); }
        }
      } else {
        InsertKeeps(f, fs[1..]);
        var rest := Insert(f, fs[1..]);
        forall j | 0 <= j < |rest| ensures Before(fs[0].key, rest[j].key) {
          assert rest[j] in rest;
        }
        assert forall g :: g in fs <==> g == fs[0] || g in fs[1..];
      }
    }
  }

  lemma {:induction false} SortFieldsSorts(fs: seq<Field>)
    requires DistinctKeys(fs)
    ensures Ascending(SortFields(fs)) && |SortFields(fs)| == |fs|
    ensures forall g :: g in SortFields(fs) <==> g in fs
  {
    if fs != [] {
      var rest := SortFields(fs[1..]);
      SortFieldsSorts(fs[1..]);
      forall i | 0 <= i < |rest| ensures rest[i].key != fs[0].key {
        assert rest[i] in rest;
      }
      InsertKeeps(fs[0], rest);
      assert forall g :: g in fs <==> g == fs[0] || g in fs[1..];
    }
  }

  /** Ascending lists with the same members are the same list. */
  lemma {:induction false} AscendingUnique(fs: seq<Field>, gs: seq<Field>)
    requires Ascending(fs) && Ascending(gs) && forall g :: g in fs <==> g in gs
    ensures fs == gs
  {
    assert fs != [] ==> fs[0] in gs;
    assert gs != [] ==> gs[0] in fs;
    if fs != [] {
      var i :| 0 <= i < |gs| && gs[i] == fs[0];
      var j :| 0 <= j < |fs| && fs[j] == gs[0];
      BeforeTotal(fs[0].key, gs[0].key);
      assert i == 0;
      forall g ensures g in fs[1..] <==> g in gs[1..] {
        BeforeTotal(fs[0].key, fs[0].key);
        if g in fs[1..] {
          var k :| 0 <= k < |fs| - 1 && fs[1..][k] == g;
          assert Before(fs[0].key, fs[k + 1].key) && g in gs;
        }
        if g in gs[1..] {
          var k :| 0 <= k < |gs| - 1 && gs[1..][k] == g;
          assert Before(gs[0].key, gs[k + 1].key) && g in fs;
        }
      }
      AscendingUnique(fs[1..], gs[1..]);
    }
  }

  lemma SortFieldsIffSameMembers(fs: seq<Field>, gs: seq<Field>)
    requires DistinctKeys(fs) && DistinctKeys(gs)
    ensures SortFields(fs) == SortFields(gs) <==> forall g :: g in fs <==> g in gs
  {
    SortFieldsSorts(fs);
    SortFieldsSorts(gs);
    if forall g :: g in fs <==> g in gs {
      AscendingUnique(SortFields(fs), SortFields(gs));
    } else {
      assert SortFields(fs) != SortFields(gs);
    }
  }

  /** The fields of a sorted object before they are put in order. */
  function SortedValues(fields: seq<Field>): (fs: seq<Field>)
    ensures |fs| == |fields| && forall i :: 0 <= i < |fs| ==> fs[i] == Field(fields[i].key, SortKeys(fields[i].value))
  {
    seq(|fields|, i requires 0 <= i < |fields| => Field(fields[i].key, SortKeys(fields[i].value)))
  }

  // ------------------------------------------------------------ normal form

  lemma DenoteMember(fields: seq<Field>, i: int)
    requires 0 <= i < |fields|
    ensures Member(fields[i].key, Denote(fields[i].value)) in Denote(Obj(fields)).members
  {
  }

  /** Sorting keys identifies exactly the values that differ only in key order. */
  lemma {:induction false} SortKeysIffSameValue(a: Json, b: Json)
    requires WellFormed(a) && WellFormed(b)
    ensures SortKeys(a) == SortKeys(b) <==> Denote(a) == Denote(b)
    decreases a, 1
  {
    match a
    case Arr(items) =>
      if b.Arr? && |b.items| == |items| {
        forall i | 0 <= i < |items|
          ensures SortKeys(items[i]) == SortKeys(b.items[i]) <==> Denote(items[i]) == Denote(b.items[i])
        {
          SortKeysIffSameValue(items[i], b.items[i]);
        }
        if SortKeys(a) == SortKeys(b) {
          forall i | 0 <= i < |items| ensures Denote(items[i]) == Denote(b.items[i]) {
            assert SortKeys(a).items[i] == SortKeys(b).items[i];
          }
        }
        if Denote(a) == Denote(b) {
          forall i | 0 <= i < |items| ensures SortKeys(items[i]) == SortKeys(b.items[i]) {
            assert Denote(a).items[i] == Denote(b).items[i];
          }
        }
      } else if b.Arr? {
        assert |SortKeys(a).items| != |SortKeys(b).items| && |Denote(a).items| != |Denote(b).items|;
      }
    case Obj(fields) =>
      if b.Obj? {
        ObjectsIffSameValue(a, b);
      }
    case _ =>
  }

  lemma {:induction false} ObjectsIffSameValue(a: Json, b: Json)
    requires WellFormed(a) && WellFormed(b) && a.Obj? && b.Obj?
    ensures SortKeys(a) == SortKeys(b) <==> Denote(a) == Denote(b)
    decreases a, 0
  {
    var fs, gs := SortedValues(a.fields), SortedValues(b.fields);
    var xs, ys := Denote(a).members, Denote(b).members;
    assert SortKeys(a) == Obj(SortFields(fs)) && SortKeys(b) == Obj(SortFields(gs));
    forall i, j | 0 <= i < |fs| && 0 <= j < |gs|
      ensures fs[i] == gs[j]
              <==> Member(a.fields[i].key, Denote(a.fields[i].value)) == Member(b.fields[j].key, Denote(b.fields[j].value))
    {
      SortKeysIffSameValue(a.fields[i].value, b.fields[j].value);
    }
    PairsAreMembers(a.fields, b.fields, fs, gs);
    SortFieldsIffSameMembers(fs, gs);
  }

  lemma PairsAreMembers(fields: seq<Field>, others: seq<Field>, fs: seq<Field>, gs: seq<Field>)
    requires |fields| == |fs| && |others| == |gs|
    requires forall i, j :: 0 <= i < |fs| && 0 <= j < |gs| ==>
               (fs[i] == gs[j] <==> Member(fields[i].key, Denote(fields[i].value))
                                    == Member(others[j].key, Denote(others[j].value)))
    ensures Denote(Obj(fields)) == Denote(Obj(others)) <==> forall g :: g in fs <==> g in gs
  {
    var xs, ys := Denote(Obj(fields)).members, Denote(Obj(others)).members;
    if xs == ys {
      forall g ensures g in fs <==> g in gs {
        if g in fs {
          var i :| 0 <= i < |fs| && fs[i] == g;
          DenoteMember(fields, i);
          var j :| 0 <= j < |gs| && Member(others[j].key, Denote(others[j].value)) == Member(fields[i].key, Denote(fields[i].value));
          assert gs[j] == g;
        }
        if g in gs {
          var j :| 0 <= j < |gs| && gs[j] == g;
          DenoteMember(others, j);
          var i :| 0 <= i < |fs| && Member(fields[i].key, Denote(fields[i].value)) == Member(others[j].key, Denote(others[j].value));
          assert fs[i] == g;
        }
      }
    }
    if forall g :: g in fs <==> g in gs {
      forall m ensures m in xs <==> m in ys {
        if m in xs {
          var i :| 0 <= i < |fs| && Member(fields[i].key, Denote(fields[i].value)) == m;
          assert fs[i] in gs;
          var j :| 0 <= j < |gs| && gs[j] == fs[i];
          DenoteMember(others, j);
        }
        if m in ys {
          var j :| 0 <= j < |gs| && Member(others[j].key, Denote(others[j].value)) == m;
          assert gs[j] in fs;
          var i :| 0 <= i < |fs| && fs[i] == gs[j];
          DenoteMember(fields, i);
        }
      }
    }
  }

  lemma AscendingDistinct(fs: seq<Field>)
    requires Ascending(fs)
    ensures DistinctKeys(fs)
  {
    forall i, j | 0 <= i < j < |fs| ensures fs[i].key != fs[j].key {
      BeforeTotal(fs[i].key, fs[j].key);
    }
  }

  /** Sorting keeps the value and is stable under a second pass. */
  lemma {:induction false} SortKeysKeepsValue(j: Json)
    requires WellFormed(j)
    ensures WellFormed(SortKeys(j)) && Denote(SortKeys(j)) == Denote(j) && SortKeys(SortKeys(j)) == SortKeys(j)
    decreases j, 1
  {
    match j
    case Arr(items) =>
      forall i | 0 <= i < |items|
        ensures WellFormed(SortKeys(items[i])) && Denote(SortKeys(items[i])) == Denote(items[i])
        ensures SortKeys(SortKeys(items[i])) == SortKeys(items[i])
      {
        SortKeysKeepsValue(items[i]);
      }
    case Obj(fields) =>
      ObjectKeepsValue(j);
      SortKeysIffSameValue(SortKeys(j), j);
    case _ =>
  }

  lemma {:induction false} ObjectKeepsValue(j: Json)
    requires WellFormed(j) && j.Obj?
    ensures WellFormed(SortKeys(j)) && Denote(SortKeys(j)) == Denote(j)
    decreases j, 0
  {
    var fs := SortedValues(j.fields);
    var gs := SortFields(fs);
    assert SortKeys(j) == Obj(gs);
    SortFieldsSorts(fs);
    AscendingDistinct(gs);
    forall i | 0 <= i < |fs| ensures WellFormed(fs[i].value) && Denote(fs[i].value) == Denote(j.fields[i].value) {
      SortKeysKeepsValue(j.fields[i].value);
    }
    forall k | 0 <= k < |gs| ensures WellFormed(gs[k].value) {
      assert gs[k] in fs;
    }
    SameMembers(j.fields, gs, fs);
  }

  lemma SameMembers(fields: seq<Field>, gs: seq<Field>, fs: seq<Field>)
    requires |fs| == |fields| && forall g :: g in gs <==> g in fs
    requires forall i :: 0 <= i < |fs| ==> fs[i].key == fields[i].key && Denote(fs[i].value) == Denote(fields[i].value)
    ensures Denote(Obj(gs)) == Denote(Obj(fields))
  {
    var xs, ys := Denote(Obj(fields)).members, Denote(Obj(gs)).members;
    forall m ensures m in xs <==> m in ys {
      if m in xs {
        var i :| 0 <= i < |fs| && Member(fields[i].key, Denote(fields[i].value)) == m;
        assert fs[i] in gs;
        var k :| 0 <= k < |gs| && gs[k] == fs[i];
        DenoteMember(gs, k);
      }
      if m in ys {
        var k :| 0 <= k < |gs| && Member(gs[k].key, Denote(gs[k].value)) == m;
        assert gs[k] in fs;
        var i :| 0 <= i < |fs| && fs[i] == gs[k];
        DenoteMember(fields, i);
      }
    }
  }

  // -------------------------------------------------------------- the loop

  lemma {:induction false} InsertMembers(f: Field, fs: seq<Field>)
    ensures forall g :: g in Insert(f, fs) <==> g == f || g in fs
  {
    if fs != [] {
      InsertMembers(f, fs[1..]);
      assert forall g :: g in fs <==> g == fs[0] || g in fs[1..];
    }
  }

  lemma {:induction false} SortFieldsMembers(fs: seq<Field>)
    ensures forall g :: g in SortFields(fs) <==> g in fs
  {
    if fs != [] {
      SortFieldsMembers(fs[1..]);
      InsertMembers(fs[0], SortFields(fs[1..]));
      assert forall g :: g in fs <==> g == fs[0] || g in fs[1..];
    }
  }

  function SortValue(f: Field): Field {
    Field(f.key, SortKeys(f.value))
  }

  lemma {:induction false} InsertCommutes(f: Field, fs: seq<Field>)
    ensures Insert(SortValue(f), SortedValues(fs)) == SortedValues(Insert(f, fs))
  {
    if fs == [] || Before(f.key, fs[0].key) {
      assert SortedValues([f] + fs) == [SortValue(f)] + SortedValues(fs);
    } else {
      InsertCommutes(f, fs[1..]);
      assert SortedValues(fs)[1..] == SortedValues(fs[1..]);
      assert SortedValues([fs[0]] + Insert(f, fs[1..])) == [SortValue(fs[0])] + SortedValues(Insert(f, fs[1..]));
    }
  }

  lemma {:induction false} SortCommutes(fs: seq<Field>)
    ensures SortFields(SortedValues(fs)) == SortedValues(SortFields(fs))
  {
    if fs == [] {
      assert SortedValues(fs) == [];
    } else {
      SortCommutes(fs[1..]);
      assert SortedValues(fs)[0] == SortValue(fs[0]) && SortedValues(fs)[1..] == SortedValues(fs[1..]);
      InsertCommutes(fs[0], SortFields(fs[1..]));
    }
  }

  /** sortKeys: fills a fresh object key by key, in sorted key order. */
  method SortKeysInto(j: Json) returns (r: Json)
    ensures r == SortKeys(j)
    decreases j
  {
    match j
    case Arr(items) =>
      var out: seq<Json> := [];
      for i := 0 to |items|
        invariant |out| == i && forall k :: 0 <= k < i ==> out[k] == SortKeys(items[k])
      {
        var item := SortKeysInto(items[i]);
        out := out + [item];
      }
      return Arr(out);
    case Obj(fields) =>
      var keys := SortFields(fields);
      var sorted: seq<Field> := [];
      for i := 0 to |keys|
        invariant |sorted| == i && forall k :: 0 <= k < i ==> sorted[k] == SortValue(keys[k])
      {
        SortFieldsMembers(fields);
        assert keys[i] in keys && keys[i] in fields;
        var value := SortKeysInto(keys[i].value);
        sorted := sorted + [Field(keys[i].key, value)];
      }
      assert sorted == SortedValues(keys);
      SortCommutes(fields);
      return Obj(sorted);
    case _ =>
      return j;
  }
}
