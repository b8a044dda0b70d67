/** What patterns "x.*" mean: a search by labels from the first one on gives the value of the
    longest pattern that the name begins with. */
module WildcardTails {
  import opened WildcardNames
  import opened WildcardHash
  import opened WildcardInit

  /** The name begins with x and a dot. */
  ghost predicate Above(name: string, x: string) {
    exists y :: name == x + "." + y
  }

  lemma {:induction false} DotAtAppend(x: string, y: string)
    ensures DotAt(x + "." + y) == DotAt(x)
  {
    var s := x + "." + y;
    if x == "" || x[0] == '.' {
      assert s[0] == '.';
    } else {
      assert s[1..] == x[1..] + "." + y && s[0] == x[0];
      DotAtAppend(x[1..], y);
    }
  }

  lemma {:induction false} SplitAppend(x: string, y: string)
    ensures Split(x + "." + y) == Split(x) + Split(y)
    decreases |x|
  {
    hide DotAt;
    var s := x + "." + y;
    DotAtAppend(x, y);
    if Dotted(x) {
      assert Head(s) == Head(x) && Tail(s) == Tail(x) + "." + y;
      SplitAppend(Tail(x), y);
    } else {
      assert Head(s) == x && Tail(s) == y;
    }
  }

  lemma {:induction false} FirstLabels(x: string, name: string) returns (y: string)
    requires Split(x) < Split(name)
    ensures name == x + "." + y
    decreases |x|
  {
    hide DotAt;
    assert Split(x)[0] == Split(name)[0];
    if Dotted(x) {
      assert Dotted(name) && Split(x)[1..] == Split(Tail(x)) && Split(name)[1..] == Split(Tail(name));
      y := FirstLabels(Tail(x), Tail(name));
      assert x == Head(x) + "." + Tail(x) && name == Head(name) + "." + Tail(name);
    } else {
      y := Tail(name);
      assert name == Head(name) + "." + Tail(name);
    }
  }

  /** The labels of x begin those of exactly the names that begin with x and a dot. */
  lemma {:induction false} BeginsIsPrefix(x: string, name: string)
    ensures Split(x) < Split(name) <==> Above(name, x)
  {
    if Split(x) < Split(name) {
      var y := FirstLabels(x, name);
    }
    if Above(name, x) {
      var y :| name == x + "." + y;
      SplitAppend(x, y);
    }
  }

  lemma {:induction false} LabelsAreSplit(x: string)
    requires FullLabels(Split(x))
    ensures Labels(x) == Split(x)
    decreases |x|
  {
    hide DotAt;
    assert Split(x)[0] != "";
    if Dotted(x) {
      assert Split(x)[1..] == Split(Tail(x));
      LabelsAreSplit(Tail(x));
    }
  }

  /** The key of "x.*", which is x, suits exactly the names that begin with x and a dot. */
  lemma {:induction false} TailPatternMeans(x: string, name: string)
    requires FullLabels(Split(x))
    ensures Suits(true, x, Split(name)) <==> Above(name, x)
  {
    LabelsAreSplit(x);
    BeginsIsPrefix(x, name);
  }

  /** "x.*", with its value. */
  datatype TailPattern = TailPattern(x: string, value: nat)

  ghost predicate TailNames(patterns: seq<TailPattern>, names: seq<Name>) {
    |names| == |patterns| && forall i :: 0 <= i < |patterns| ==>
      FullLabels(Split(patterns[i].x)) && names[i] == Name(patterns[i].x, patterns[i].value)
  }

  lemma {:induction false} FullIsNotStrict(x: string)
    requires FullLabels(Split(x))
    ensures !Strict(x)
    decreases |x|
  {
    assert Split(x)[0] != "";
    if Dotted(x) {
      assert Split(x)[1..] == Split(Tail(x));
      assert Split(Tail(x))[0] != "";
      FullIsNotStrict(Tail(x));
      assert Tail(x) != "";
    } else {
      assert forall k :: 0 <= k < |x| ==> x[k] != '.';
    }
  }

  /** Such keys do not end in a dot, so the table that is built serves searches from the beginning. */
  lemma TailsArePlain(patterns: seq<TailPattern>, names: seq<Name>)
    requires TailNames(patterns, names)
    ensures Plain(names)
  {
    forall i | 0 <= i < |names| ensures !Strict(names[i].key) {
      FullIsNotStrict(patterns[i].x);
    }
  }

  ghost predicate LongestTail(patterns: seq<TailPattern>, i: nat, name: string)
    requires i < |patterns|
  {
    Above(name, patterns[i].x)
    && forall j :: 0 <= j < |patterns| && Above(name, patterns[j].x) ==> |patterns[j].x| <= |patterns[i].x|
  }

  lemma PrefixesNest(a: seq<string>, b: seq<string>, c: seq<string>)
    requires a < c && b < c && |a| <= |b|
    ensures if |a| < |b| then a < b else a == b
  {
    assert a == c[..|a|] && b == c[..|b|];
  }

  lemma {:induction false} MoreLabelsAreLonger(x: string, y: string, name: string)
    requires Split(x) < Split(name) && Split(y) < Split(name) && |Split(x)| <= |Split(y)|
    ensures |x| <= |y|
  {
    hide Split;
    PrefixesNest(Split(x), Split(y), Split(name));
    if |Split(x)| < |Split(y)| {
      var z := FirstLabels(x, y);
    } else {
      SameSplit(x, y);
    }
  }

  lemma {:induction false} SameSplit(x: string, y: string)
    requires Split(x) == Split(y)
    ensures x == y
    decreases |x|
  {
    hide DotAt;
    assert Split(x)[0] == Split(y)[0];
    if Dotted(x) && Dotted(y) {
      assert Split(x)[1..] == Split(Tail(x)) && Split(y)[1..] == Split(Tail(y));
      SameSplit(Tail(x), Tail(y));
      assert x == Head(x) + "." + Tail(x) && y == Head(y) + "." + Tail(y);
    } else {
      assert |Split(x)| == 1 <==> !Dotted(x);
      assert |Split(y)| == 1 <==> !Dotted(y);
    }
  }

  /** A search in the built hash gives the value of the longest pattern "x.*" that the name begins
      with, and nothing if there is none. */
  lemma {:induction false} LongestTailWins(patterns: seq<TailPattern>, names: seq<Name>, t: Table, name: string)
    requires TailNames(patterns, names) && Serves(true, t, names)
    ensures match Find(true, t, Split(name))
            case None => forall i :: 0 <= i < |patterns| ==> !Above(name, patterns[i].x)
            case Some(v) => exists i :: 0 <= i < |patterns| && patterns[i].value == v && LongestTail(patterns, i, name)
  {
    hide Find, Split, Above, Labels;
    var q := Split(name);
    forall i | 0 <= i < |patterns| ensures Suits(true, names[i].key, q) == Above(name, patterns[i].x) {
      TailPatternMeans(patterns[i].x, name);
    }
    var r := Find(true, t, q);
    assert IsBest(true, names, q, r);
    if r.Some? {
      var i :| 0 <= i < |names| && names[i].value == r.v && Suits(true, names[i].key, q) && Beats(true, names, i, q);
      forall j | 0 <= j < |patterns| && Above(name, patterns[j].x) ensures |patterns[j].x| <= |patterns[i].x| {
        assert Suits(true, names[j].key, q);
        BeginsIsPrefix(patterns[j].x, name);
        BeginsIsPrefix(patterns[i].x, name);
        LabelsAreSplit(patterns[j].x);
        LabelsAreSplit(patterns[i].x);
        MoreLabelsAreLonger(patterns[j].x, patterns[i].x, name);
      }
      assert LongestTail(patterns, i, name);
    }
  }
}
