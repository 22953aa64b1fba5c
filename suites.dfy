/**
 * The suite partitioner: `listSplit` cuts a flat test list at the '==='
 * marker into segments, and each evaluator groups the segments into tiers.
 */
module Suites {

  /** One element of a task's flat test list: a test case (its argument tuple) or the '===' marker. */
  datatype TestItem<A> = Case(args: A) | Sep

  /** A segment written back as test items. */
  function Wrap<A>(seg: seq<A>): (r: seq<TestItem<A>>)
    ensures |r| == |seg| && forall i :: 0 <= i < |seg| ==> r[i] == Case(seg[i])
  {
    seq(|seg|, i requires 0 <= i < |seg| => Case(seg[i]))
  }

  /** The flat list that segments come from: their cases, one marker between neighbours. */
  function Join<A>(segs: seq<seq<A>>): seq<TestItem<A>>
    requires |segs| >= 1
  {
    if |segs| == 1 then Wrap(segs[0])
    else Join(segs[..|segs| - 1]) + [Sep] + Wrap(segs[|segs| - 1])
  }

  /** The segments of a flat list, as `listSplit` builds them element by element. */
  function Split<A>(s: seq<TestItem<A>>): (segs: seq<seq<A>>)
    ensures |segs| >= 1
  {
    if s == [] then [[]]
    else
      var init := Split(s[..|s| - 1]);
      match s[|s| - 1]
      case Sep => init + [[]]
      case Case(a) => init[..|init| - 1] + [init[|init| - 1] + [a]]
  }

  /** The test cases of a flat list, in order, markers removed. */
  function Cases<A>(s: seq<TestItem<A>>): seq<A> {
    if s == [] then []
    else
      Cases(s[..|s| - 1]) + match s[|s| - 1] case Sep => [] case Case(a) => [a]
  }

  function SepCount<A>(s: seq<TestItem<A>>): nat {
    if s == [] then 0
    else SepCount(s[..|s| - 1]) + if s[|s| - 1].Sep? then 1 else 0
  }

  /** The concatenation of segments (`for suite in ...: x.extend(suite)`). */
  function Flatten<A>(segs: seq<seq<A>>): seq<A> {
    if segs == [] then [] else Flatten(segs[..|segs| - 1]) + segs[|segs| - 1]
  }

  /** `listSplit(s, '===')`. */
  method ListSplit<A>(s: seq<TestItem<A>>) returns (segments: seq<seq<A>>)
    ensures segments == Split(s)
  {
    segments := [];
    var z: seq<A> := [];
    for i := 0 to |s|
      invariant segments + [z] == Split(s[..i])
    {
      assert s[..i + 1][..i] == s[..i];
      match s[i]
      case Sep =>
        segments := segments + [z];
        z := [];
      case Case(a) =>
        z := z + [a];
    }
    segments := segments + [z];
    assert s[..|s|] == s;
  }

  /** Appending the segments from index `from` on to an empty list, one `extend` at a time. */
  method ExtendAll<A>(segs: seq<seq<A>>, from: nat) returns (r: seq<A>)
    requires from <= |segs|
    ensures r == Flatten(segs[from..])
  {
    r := [];
    for i := from to |segs|
      invariant r == Flatten(segs[from..i])
    {
      assert segs[from..i + 1][..i - from] == segs[from..i];
      r := r + segs[i];
    }
    assert segs[from..|segs|] == segs[from..];
  }

  // ---------------------------------------------------------------------------
  // listSplit is the inverse of joining with the marker
  // ---------------------------------------------------------------------------

  lemma WrapSnoc<A>(z: seq<A>, a: A)
    ensures Wrap(z + [a]) == Wrap(z) + [Case(a)]
  {
  }

  lemma {:induction false} JoinExtendLast<A>(segs: seq<seq<A>>, a: A)
    requires |segs| >= 1
    ensures Join(segs[..|segs| - 1] + [segs[|segs| - 1] + [a]]) == Join(segs) + [Case(a)]
  {
    var segs' := segs[..|segs| - 1] + [segs[|segs| - 1] + [a]];
    WrapSnoc(segs[|segs| - 1], a);
    if |segs| > 1 {
      assert segs'[..|segs'| - 1] == segs[..|segs| - 1];
    }
  }

  /** Joining the segments of a list with the marker gives the list back. */
  lemma {:induction false} JoinSplit<A>(s: seq<TestItem<A>>)
    ensures Join(Split(s)) == s
  {
    if s == [] {
      assert Split(s) == [[]];
      assert Wrap<A>([]) == [];
    } else {
      var s0, last := s[..|s| - 1], s[|s| - 1];
      assert s == s0 + [last];
      var init := Split(s0);
      JoinSplit(s0);
      match last
      case Sep =>
        var segs := init + [[]];
        assert Split(s) == segs;
        assert segs[..|segs| - 1] == init;
        assert Wrap<A>([]) == [];
        assert Join(segs) == Join(init) + [Sep] + Wrap<A>([]);
      case Case(a) =>
        assert Split(s) == init[..|init| - 1] + [init[|init| - 1] + [a]];
        JoinExtendLast(init, a);
    }
  }

  /** Appending a test case extends the last segment. */
  lemma SplitSnocCase<A>(u: seq<TestItem<A>>, a: A)
    ensures var su := Split(u);
      Split(u + [Case(a)]) == su[..|su| - 1] + [su[|su| - 1] + [a]]
  {
    assert (u + [Case(a)])[..|u|] == u;
  }

  /** One more test case at the end of the appended segment. */
  lemma SplitAppendWrapStep<A>(t: seq<TestItem<A>>, x0: seq<A>, a: A)
    requires var segs := Split(t);
      Split(t + Wrap(x0)) == segs[..|segs| - 1] + [segs[|segs| - 1] + x0]
    ensures var segs := Split(t);
      Split(t + Wrap(x0 + [a])) == segs[..|segs| - 1] + [segs[|segs| - 1] + (x0 + [a])]
  {
    var segs := Split(t);
    var front, last := segs[..|segs| - 1], segs[|segs| - 1];
    var u := t + Wrap(x0);
    var su := Split(u);
    calc {
      Split(t + Wrap(x0 + [a]));
    == { WrapSnoc(x0, a); assert t + Wrap(x0 + [a]) == u + [Case(a)]; }
      Split(u + [Case(a)]);
    == { SplitSnocCase(u, a); }
      su[..|su| - 1] + [su[|su| - 1] + [a]];
    == { assert su[..|su| - 1] == front; }
      front + [(last + x0) + [a]];
    == { assert (last + x0) + [a] == last + (x0 + [a]); }
      front + [last + (x0 + [a])];
    }
  }

  lemma {:induction false} SplitAppendWrap<A>(t: seq<TestItem<A>>, x: seq<A>)
    ensures var segs := Split(t);
      Split(t + Wrap(x)) == segs[..|segs| - 1] + [segs[|segs| - 1] + x]
  {
    if x == [] {
      var segs := Split(t);
      assert t + Wrap(x) == t;
      assert segs[|segs| - 1] + x == segs[|segs| - 1];
    } else {
      var x0, a := x[..|x| - 1], x[|x| - 1];
      SplitAppendWrap(t, x0);
      SplitAppendWrapStep(t, x0, a);
      assert x == x0 + [a];
    }
  }

  lemma SplitWrap<A>(x: seq<A>)
    ensures Split(Wrap(x)) == [x]
  {
    var empty: seq<TestItem<A>> := [];
    SplitAppendWrap(empty, x);
    assert empty + Wrap(x) == Wrap(x);
    assert Split(empty) == [[]];
    var none: seq<A> := [];
    assert none + x == x;
  }

  lemma SplitSnocSep<A>(t: seq<TestItem<A>>)
    ensures Split(t + [Sep]) == Split(t) + [[]]
  {
    assert (t + [Sep])[..|t|] == t;
  }

  /** Splitting a joined list gives the segments back: no two segment lists join to the same list. */
  lemma {:induction false} SplitJoin<A>(segs: seq<seq<A>>)
    requires |segs| >= 1
    ensures Split(Join(segs)) == segs
  {
    if |segs| == 1 {
      SplitWrap(segs[0]);
    } else {
      var init, last := segs[..|segs| - 1], segs[|segs| - 1];
      SplitJoin(init);
      var t := Join(init) + [Sep];
      assert Join(segs) == t + Wrap(last);
      SplitSnocSep(Join(init));
      var st := init + [[]];
      assert Split(t) == st;
      SplitAppendWrap(t, last);
      assert Split(t + Wrap(last)) == st[..|st| - 1] + [st[|st| - 1] + last];
      assert st[..|st| - 1] == init;
      var none: seq<A> := [];
      assert st[|st| - 1] == none;
      assert none + last == last;
      assert segs == init + [last];
    }
  }

  /** There is one segment more than there are markers. */
  lemma {:induction false} SplitCount<A>(s: seq<TestItem<A>>)
    ensures |Split(s)| == SepCount(s) + 1
  {
    if s != [] {
      SplitCount(s[..|s| - 1]);
    }
  }

  lemma {:induction false} FlattenAppend<A>(a: seq<seq<A>>, b: seq<seq<A>>)
    ensures Flatten(a + b) == Flatten(a) + Flatten(b)
  {
    if b == [] {
      assert a + b == a;
    } else {
      var b0, last := b[..|b| - 1], b[|b| - 1];
      assert (a + b)[..|a + b| - 1] == a + b0;
      assert (a + b)[|a + b| - 1] == last;
      FlattenAppend(a, b0);
      assert Flatten(a + b) == Flatten(a + b0) + last;
      assert Flatten(b) == Flatten(b0) + last;
      assert (Flatten(a) + Flatten(b0)) + last == Flatten(a) + (Flatten(b0) + last);
    }
  }

  /** Concatenating the segments gives the list with its markers removed. */
  lemma {:induction false} SplitFlatten<A>(s: seq<TestItem<A>>)
    ensures Flatten(Split(s)) == Cases(s)
  {
    if s != [] {
      var init := Split(s[..|s| - 1]);
      SplitFlatten(s[..|s| - 1]);
      match s[|s| - 1]
      case Sep =>
        assert (init + [[]])[..|init|] == init;
      case Case(a) =>
        var segs := init[..|init| - 1] + [init[|init| - 1] + [a]];
        assert segs[..|segs| - 1] == init[..|init| - 1];
        assert init == init[..|init| - 1] + [init[|init| - 1]];
    }
  }

  // ---------------------------------------------------------------------------
  // Tiering
  // ---------------------------------------------------------------------------

  /** The three tiers of the newer evaluator. */
  datatype Tiers<A> = Tiers(base0: seq<A>, base1: seq<A>, validation: seq<A>)

  /**
   * One segment: base0 only; two: base0 and validation; three or more:
   * base0, base1, and the rest concatenated as validation.
   */
  function BasicTiering<A>(segs: seq<seq<A>>): Tiers<A>
    requires |segs| >= 1
  {
    if |segs| == 2 then Tiers(segs[0], [], segs[1])
    else if |segs| > 2 then Tiers(segs[0], segs[1], Flatten(segs[2..]))
    else Tiers(segs[0], [], [])
  }

  /**
   * The older evaluator's base and validation suites. With two or fewer
   * segments the flag plays no role; with three or more it decides whether
   * the second segment is part of the base suite or of the validation suite.
   */
  function LegacyTiering<A>(useSecondSuite: bool, segs: seq<seq<A>>): (seq<A>, seq<A>)
    requires |segs| >= 1
  {
    if |segs| == 1 then (segs[0], [])
    else if |segs| == 2 then (segs[0], segs[1])
    else if useSecondSuite then (segs[0] + segs[1], Flatten(segs[2..]))
    else (segs[0], Flatten(segs[1..]))
  }

  lemma FlattenFront<A>(segs: seq<seq<A>>, k: nat)
    requires k < |segs|
    ensures Flatten(segs[k..]) == segs[k] + Flatten(segs[k + 1..])
  {
    FlattenAppend([segs[k]], segs[k + 1..]);
    assert segs[k..] == [segs[k]] + segs[k + 1..];
    assert [segs[k]][..0] == [];
  }

  /**
   * The tiers of the newer evaluator follow the number of markers, and
   * together hold exactly the test cases of the flat list, in order.
   */
  lemma BasicTieringCovers<A>(s: seq<TestItem<A>>)
    ensures var t := BasicTiering(Split(s));
      && t.base0 + t.base1 + t.validation == Cases(s)
      && t.base0 == Split(s)[0]
      && (SepCount(s) == 0 ==> t == Tiers(Cases(s), [], []))
      && (SepCount(s) == 1 ==> |Split(s)| == 2 && t == Tiers(Split(s)[0], [], Split(s)[1]))
      && (SepCount(s) >= 2 ==> |Split(s)| >= 3 && t.base1 == Split(s)[1])
  {
    var segs := Split(s);
    SplitCount(s);
    SplitFlatten(s);
    FlattenFront(segs, 0);
    if |segs| >= 2 {
      FlattenFront(segs, 1);
      assert segs[2..] == [] ==> Flatten(segs[2..]) == [];
    }
    if |segs| == 1 {
      assert segs[1..] == [];
    }
    if |segs| == 2 {
      assert segs[2..] == [];
    }
  }

  /** The older evaluator's base and validation suites together are all segments, in order. */
  lemma LegacyTieringFlatten<A>(useSecondSuite: bool, segs: seq<seq<A>>)
    requires |segs| >= 1
    ensures var (base, validation) := LegacyTiering(useSecondSuite, segs);
      base + validation == Flatten(segs)
  {
    assert segs[0..] == segs;
    FlattenFront(segs, 0);
    if |segs| == 1 {
      assert segs[1..] == [];
    } else {
      FlattenFront(segs, 1);
      if |segs| == 2 {
        assert segs[2..] == [];
      }
    }
  }

  /** The older evaluator's base and validation suites together hold exactly the test cases. */
  lemma LegacyTieringCovers<A>(useSecondSuite: bool, s: seq<TestItem<A>>)
    ensures var (base, validation) := LegacyTiering(useSecondSuite, Split(s));
      base + validation == Cases(s)
  {
    LegacyTieringFlatten(useSecondSuite, Split(s));
    SplitFlatten(s);
  }

  /**
   * With the flag on, the older evaluator's base suite is the newer one's
   * base0 followed by base1, and both have the same validation suite.
   */
  lemma LegacyTieringMatchesBasic<A>(segs: seq<seq<A>>)
    requires |segs| >= 1
    ensures var t := BasicTiering(segs);
      LegacyTiering(true, segs) == (t.base0 + t.base1, t.validation)
  {
    if |segs| <= 2 {
      assert segs[0] + [] == segs[0];
    }
  }

  /** The worked example: [a, b, ===, c, d, ===, e]. */
  lemma TieringExample()
    ensures BasicTiering(Split([Case(1), Case(2), Sep, Case(3), Case(4), Sep, Case(5)]))
      == Tiers([1, 2], [3, 4], [5])
  {
    var s := [Case(1), Case(2), Sep, Case(3), Case(4), Sep, Case(5)];
    var segs := [[1, 2], [3, 4], [5]];
    SplitJoin(segs);
    assert Join(segs[..1]) == Wrap([1, 2]);
    assert Join(segs[..2]) == Wrap([1, 2]) + [Sep] + Wrap([3, 4]);
    assert Join(segs) == s;
    assert segs[2..] == [[5]];
    assert Flatten(segs[2..]) == Flatten([]) + [5];
  }
}
