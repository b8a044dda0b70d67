/** The wildcard hash of ngx_hash.c: nested tables, one level a label, built from sorted names and
    searched label by label, against "the matching pattern with the most labels".

    A table is the map that ngx_hash_init and ngx_hash_find make of it.  The two low bits that
    the code keeps in a pointer are the constructor and the field `strict` of an entry. */
module WildcardHash {
  import opened WildcardNames

  datatype Option = None | Some(v: nat)

  /** ngx_hash_key_t: a key as ngx_hash_add_key has turned it, and the value of its pattern. */
  datatype Name = Name(key: string, value: nat)

  datatype Table = Table(value: Option, entries: map<string, Entry>)

  datatype Entry =
    | Data(value: nat, strict: bool)   // low bits 00 or 01
    | Hash(table: Table, strict: bool) // low bits 10 or 11

  // ---------------------------------------------------------------- searching

  /** ngx_hash_find_wc_head on reversed labels, or with `tail` ngx_hash_find_wc_tail on labels, which
      does not clear the low bit of a value. */
  function Find(tail: bool, t: Table, q: seq<string>): Option
    requires q != []
    decreases |q|, 1
  {
    if tail && |q| == 1 then None
    else if q[0] in t.entries then FindEntry(tail, t.entries[q[0]], q)
    else t.value
  }

  function FindEntry(tail: bool, e: Entry, q: seq<string>): Option
    requires q != []
    decreases |q|, 0
  {
    match e
    case Data(v, strict) => if |q| == 1 && (tail || strict) then None else Some(if tail && strict then v + 1 else v)
    case Hash(t, strict) =>
      if |q| == 1 then if tail || strict then None else t.value
      else
        var r := Find(tail, t, q[1..]);
        if r.Some? then r else t.value
  }

  // ---------------------------------------------------------------- what is to be found

  /** The pattern covers the name with labels `q`: "*.x" and "x.*" need at least one label more. */
  predicate Suits(tail: bool, key: string, q: seq<string>) {
    Labels(key) <= q && (tail || Strict(key) ==> |Labels(key)| < |q|)
  }

  ghost predicate Beats(tail: bool, names: seq<Name>, i: nat, q: seq<string>)
    requires i < |names|
  {
    forall j :: 0 <= j < |names| && Suits(tail, names[j].key, q) ==>
      |Labels(names[j].key)| <= |Labels(names[i].key)|
  }

  /** `r` is the value of a suitable pattern with the most labels, or none if none is suitable. */
  ghost predicate IsBest(tail: bool, names: seq<Name>, q: seq<string>, r: Option) {
    match r
    case None => forall j :: 0 <= j < |names| ==> !Suits(tail, names[j].key, q)
    case Some(v) =>
      exists i :: 0 <= i < |names| && names[i].value == v && Suits(tail, names[i].key, q) && Beats(tail, names, i, q)
  }

  /** No key ends in a dot: so it is with the keys of "x.*". */
  predicate Plain(names: seq<Name>) {
    forall i :: 0 <= i < |names| ==> !Strict(names[i].key)
  }

  ghost predicate Serves(tail: bool, t: Table, names: seq<Name>) {
    t.value == None && forall q: seq<string> :: q != [] ==> IsBest(tail, names, q, Find(tail, t, q))
  }

  // ---------------------------------------------------------------- the names that are given

  /** Labels are not empty, and characters are printable. */
  predicate WellFormed(key: string)
    decreases |key|
  {
    Printable(key) && Head(key) != "" && (Dotted(key) ==> Tail(key) == "" || WellFormed(Tail(key)))
  }

  /** What ngx_hash_wildcard_init may rely on: the caller sorted the names, and no two of them
      are patterns over the same labels. */
  ghost predicate Ready(names: seq<Name>) {
    && (forall i :: 0 <= i < |names| ==> WellFormed(names[i].key))
    && (forall i, j :: 0 <= i < j < |names| ==> DnsLess(names[i].key, names[j].key))
    && (forall i, j :: 0 <= i < j < |names| ==> Labels(names[i].key) != Labels(names[j].key))
  }

  /** The key is one label, with or without a dot. */
  predicate Bare(key: string) { !Dotted(key) || Tail(key) == "" }

  // ---------------------------------------------------------------- one label at a time

  lemma {:induction false} HeadOfLabels(key: string)
    requires WellFormed(key)
    ensures Labels(key) != [] && Labels(key)[0] == Head(key)
    ensures Bare(key) ==> Labels(key) == [Head(key)] && Strict(key) == Dotted(key)
    ensures !Bare(key) ==> WellFormed(Tail(key)) && Labels(key) == [Head(key)] + Labels(Tail(key))
                           && Strict(key) == Strict(Tail(key))
  {
    if !Dotted(key) {
      assert Head(key) == key;
    }
  }

  lemma {:induction false} SuitsBare(tail: bool, key: string, q: seq<string>)
    requires WellFormed(key) && Bare(key) && q != []
    ensures Suits(tail, key, q) <==> Head(key) == q[0] && (tail || Dotted(key) ==> |q| > 1)
    ensures |Labels(key)| == 1
  {
    HeadOfLabels(key);
  }

  lemma {:induction false} SuitsLong(tail: bool, key: string, q: seq<string>)
    requires WellFormed(key) && !Bare(key) && q != []
    ensures WellFormed(Tail(key))
    ensures Suits(tail, key, q) <==> Head(key) == q[0] && |q| > 1 && Suits(tail, Tail(key), q[1..])
    ensures |Labels(key)| == 1 + |Labels(Tail(key))|
  {
    HeadOfLabels(key);
    HeadOfLabels(Tail(key));
    assert q == [q[0]] + q[1..];
  }

  /** The value of a table matters only where nothing is found in it. */
  lemma {:induction false} DefaultValue(tail: bool, t: Table, w: Option, q: seq<string>)
    requires q != [] && t.value == None
    ensures var r, r' := Find(tail, t, q), Find(tail, t.(value := w), q);
            (r.Some? ==> r' == r) && (r.None? ==> r' == None || r' == w)
  {
  }

  // ---------------------------------------------------------------- one group of names

  /** The names from n to i are exactly those with first label h; after the first, all go on. */
  ghost predicate IsGroup(names: seq<Name>, n: nat, i: nat, h: string) {
    && n < i <= |names|
    && (forall j :: 0 <= j < |names| ==> WellFormed(names[j].key))
    && (forall j :: n <= j < i ==> Head(names[j].key) == h)
    && (forall j :: 0 <= j < n || i <= j < |names| ==> Head(names[j].key) != h)
    && (forall j {:trigger names[j]} :: n < j < i ==> !Bare(names[j].key))
  }

  /** Where the names of a group that go on begin. */
  function GoingOn(names: seq<Name>, n: nat): nat
    requires n < |names|
  {
    if Bare(names[n].key) then n + 1 else n
  }

  function Rest(names: seq<Name>, lo: nat, hi: nat): (rest: seq<Name>)
    requires lo <= hi <= |names|
    requires forall j {:trigger names[j]} :: lo <= j < hi ==> Dotted(names[j].key)
    ensures |rest| == hi - lo
    ensures forall k :: 0 <= k < hi - lo ==> rest[k] == Name(Tail(names[lo + k].key), names[lo + k].value)
  {
    if lo == hi then [] else Rest(names, lo, hi - 1) + [Name(Tail(names[hi - 1].key), names[hi - 1].value)]
  }

  /** The entry for a group, given the table for the names that go on. */
  ghost predicate EntryFor(e: Entry, names: seq<Name>, n: nat, i: nat, sub: Table)
    requires n < i <= |names|
  {
    var f := names[n];
    if GoingOn(names, n) == i then e == Data(f.value, Dotted(f.key))
    else e == Hash(sub.(value := if Bare(f.key) then Some(f.value) else None), Dotted(f.key))
  }

  lemma OnlyGroupSuits(tail: bool, names: seq<Name>, n: nat, i: nat, h: string, q: seq<string>, j: nat)
    requires IsGroup(names, n, i, h) && q != [] && q[0] == h && j < |names|
    requires j < n || i <= j
    ensures !Suits(tail, names[j].key, q)
  {
    HeadOfLabels(names[j].key);
  }

  lemma {:induction false} RestSuits(tail: bool, names: seq<Name>, n: nat, i: nat, h: string, q: seq<string>, j: nat)
    requires IsGroup(names, n, i, h) && |q| > 1 && q[0] == h && GoingOn(names, n) <= j < i
    ensures var k := Rest(names, GoingOn(names, n), i)[j - GoingOn(names, n)].key;
            (Suits(tail, names[j].key, q) <==> Suits(tail, k, q[1..])) && |Labels(names[j].key)| == 1 + |Labels(k)|
  {
    hide Suits;
    hide Labels;
    hide WellFormed;
    SuitsLong(tail, names[j].key, q);
  }

  /** The best of the names that go on is the best of all. */
  lemma {:induction false} RestIsBest(tail: bool, names: seq<Name>, n: nat, i: nat, h: string, q: seq<string>, v: nat)
    requires IsGroup(names, n, i, h) && |q| > 1 && q[0] == h
    requires IsBest(tail, Rest(names, GoingOn(names, n), i), q[1..], Some(v))
    ensures IsBest(tail, names, q, Some(v))
  {
    hide Suits, Labels, WellFormed, Beats, Rest;
    var lo := GoingOn(names, n);
    var rest := Rest(names, lo, i);
    var k :| 0 <= k < |rest| && rest[k].value == v && Suits(tail, rest[k].key, q[1..]) && Beats(tail, rest, k, q[1..]);
    RestBeats(tail, names, n, i, h, q, k);
    assert names[lo + k].value == v;
  }

  lemma {:induction false} RestBeats(tail: bool, names: seq<Name>, n: nat, i: nat, h: string, q: seq<string>, k: nat)
    requires IsGroup(names, n, i, h) && |q| > 1 && q[0] == h && k < i - GoingOn(names, n)
    requires Suits(tail, Rest(names, GoingOn(names, n), i)[k].key, q[1..])
    requires Beats(tail, Rest(names, GoingOn(names, n), i), k, q[1..])
    ensures Suits(tail, names[GoingOn(names, n) + k].key, q) && Beats(tail, names, GoingOn(names, n) + k, q)
  {
    hide Suits, Labels, WellFormed;
    var lo := GoingOn(names, n);
    RestSuits(tail, names, n, i, h, q, lo + k);
    forall j | 0 <= j < |names| && Suits(tail, names[j].key, q)
      ensures |Labels(names[j].key)| <= |Labels(names[lo + k].key)|
    {
      NotLonger(tail, names, n, i, h, q, j, k);
    }
  }

  lemma {:induction false} NotLonger(tail: bool, names: seq<Name>, n: nat, i: nat, h: string, q: seq<string>, j: nat, k: nat)
    requires IsGroup(names, n, i, h) && |q| > 1 && q[0] == h && j < |names| && Suits(tail, names[j].key, q)
    requires k < i - GoingOn(names, n) && Beats(tail, Rest(names, GoingOn(names, n), i), k, q[1..])
    ensures |Labels(names[j].key)| <= |Labels(names[GoingOn(names, n) + k].key)|
  {
    hide Rest, Head;
    hide Suits, Labels, Bare, WellFormed;
    var lo := GoingOn(names, n);
    if j < n || i <= j {
      OnlyGroupSuits(tail, names, n, i, h, q, j);
    } else if lo <= j {
      RestSuits(tail, names, n, i, h, q, j);
      RestSuits(tail, names, n, i, h, q, lo + k);
    } else {
      BareIsShortest(names, n, i, h, lo + k);
    }
  }

  lemma BareIsShortest(names: seq<Name>, n: nat, i: nat, h: string, j: nat)
    requires IsGroup(names, n, i, h) && n < |names| && Bare(names[n].key) && n <= j < i
    ensures |Labels(names[n].key)| <= |Labels(names[j].key)|
  {
    HeadOfLabels(names[n].key);
    HeadOfLabels(names[j].key);
  }

  /** If none of the names that go on suits, the bare name decides. */
  lemma BareIsBest(tail: bool, names: seq<Name>, n: nat, i: nat, h: string, q: seq<string>)
    requires IsGroup(names, n, i, h) && q != [] && q[0] == h
    requires forall j :: GoingOn(names, n) <= j < i ==> !Suits(tail, names[j].key, q)
    ensures var f := names[n].key;
            IsBest(tail, names, q,
                   if Bare(f) && (|q| > 1 || !(tail || Dotted(f))) then Some(names[n].value) else None)
  {
    hide Labels, Bare, WellFormed, Suits;
    var f := names[n].key;
    forall j | 0 <= j < |names| && (j < n || i <= j) ensures !Suits(tail, names[j].key, q) {
      OnlyGroupSuits(tail, names, n, i, h, q, j);
    }
    if Bare(f) {
      SuitsBare(tail, f, q);
      assert forall j :: 0 <= j < |names| && j != n ==> !Suits(tail, names[j].key, q);
      if |q| > 1 || !(tail || Dotted(f)) {
        assert Beats(tail, names, n, q);
      }
    }
  }

  /** The entry of a group finds the best for every name that ends, or begins, with its label. */
  lemma {:induction false} GroupServes(tail: bool, names: seq<Name>, n: nat, i: nat, h: string, e: Entry, sub: Table, q: seq<string>)
    requires IsGroup(names, n, i, h) && EntryFor(e, names, n, i, sub) && q != [] && q[0] == h
    requires GoingOn(names, n) < i ==> Serves(tail, sub, Rest(names, GoingOn(names, n), i))
    requires tail ==> Plain(names)
    ensures IsBest(tail, names, q, FindEntry(tail, e, q))
  {
    HeadOfLabels(names[n].key);
    hide Labels, WellFormed, Suits, IsBest, Find;
    var lo := GoingOn(names, n);
    if |q| == 1 {
      ShortName(tail, names, n, i, h, q);
      BareIsBest(tail, names, n, i, h, q);
    } else if lo == i {
      BareIsBest(tail, names, n, i, h, q);
    } else {
      var w := if Bare(names[n].key) then Some(names[n].value) else None;
      DefaultValue(tail, sub, w, q[1..]);
      var r := Find(tail, sub, q[1..]);
      assert IsBest(tail, Rest(names, lo, i), q[1..], r);
      if r.Some? {
        RestIsBest(tail, names, n, i, h, q, r.v);
      } else {
        NoneGoesOn(tail, names, n, i, h, q);
        BareIsBest(tail, names, n, i, h, q);
      }
    }
  }

  lemma ShortName(tail: bool, names: seq<Name>, n: nat, i: nat, h: string, q: seq<string>)
    requires IsGroup(names, n, i, h) && |q| == 1
    ensures forall j :: GoingOn(names, n) <= j < i ==> !Suits(tail, names[j].key, q)
  {
    forall j | GoingOn(names, n) <= j < i ensures !Suits(tail, names[j].key, q) {
      SuitsLong(tail, names[j].key, q);
    }
  }

  lemma {:induction false} NoneGoesOn(tail: bool, names: seq<Name>, n: nat, i: nat, h: string, q: seq<string>)
    requires IsGroup(names, n, i, h) && |q| > 1 && q[0] == h
    requires IsBest(tail, Rest(names, GoingOn(names, n), i), q[1..], None)
    ensures forall j :: GoingOn(names, n) <= j < i ==> !Suits(tail, names[j].key, q)
  {
    forall j | GoingOn(names, n) <= j < i ensures !Suits(tail, names[j].key, q) {
      RestSuits(tail, names, n, i, h, q, j);
    }
  }

  /** Where names go on, their keys keep their ends. */
  lemma {:induction false} RestPlain(names: seq<Name>, n: nat, i: nat, h: string)
    requires IsGroup(names, n, i, h) && Plain(names)
    ensures Plain(Rest(names, GoingOn(names, n), i))
  {
    var lo := GoingOn(names, n);
    forall k | 0 <= k < i - lo ensures !Strict(Rest(names, lo, i)[k].key) {
      HeadOfLabels(names[lo + k].key);
    }
  }
}
