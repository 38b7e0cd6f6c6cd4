/** Sequences, and partial maps over them. */
module Lists {
  import opened Text

  lemma Associative<T>(a: seq<T>, b: seq<T>, c: seq<T>)
    ensures (a + b) + c == a + (b + c)
  {
  }

  lemma Subset<T>(a: set<T>, b: set<T>)
    requires a <= b
    ensures |a| <= |b|
  {
    assert b == a + (b - a);
  }

  /** The images of the elements that have one, in order. */
  function Collect<A, B>(s: seq<A>, f: A -> Option<B>): (r: seq<B>) {
    if s == [] then []
    else
      var before, image := Collect(s[..|s| - 1], f), f(s[|s| - 1]);
      if image.Some? then before + [image.value] else before
  }

  /** The elements that have an image, in order. */
  function Having<A, B>(s: seq<A>, f: A -> Option<B>): (r: seq<A>) {
    if s == [] then []
    else
      var before, last := Having(s[..|s| - 1], f), s[|s| - 1];
      if f(last).Some? then before + [last] else before
  }

  /** The elements that have none, in order. */
  function Lacking<A, B>(s: seq<A>, f: A -> Option<B>): (r: seq<A>) {
    if s == [] then []
    else
      var before, last := Lacking(s[..|s| - 1], f), s[|s| - 1];
      if f(last).Some? then before else before + [last]
  }

  lemma Init<A>(a: seq<A>, b: seq<A>)
    requires b != []
    ensures (a + b)[..|a + b| - 1] == a + b[..|b| - 1]
  {
  }

  lemma Next<A, B>(s: seq<A>, n: nat, f: A -> Option<B>)
    requires n < |s|
    ensures Collect(s[..n + 1], f)
            == if f(s[n]).Some? then Collect(s[..n], f) + [f(s[n]).value] else Collect(s[..n], f)
    ensures Having(s[..n + 1], f) == if f(s[n]).Some? then Having(s[..n], f) + [s[n]] else Having(s[..n], f)
    ensures Lacking(s[..n + 1], f) == if f(s[n]).Some? then Lacking(s[..n], f) else Lacking(s[..n], f) + [s[n]]
  {
    assert s[..n + 1][..n] == s[..n];
  }

  lemma {:induction false} CollectConcat<A, B>(a: seq<A>, b: seq<A>, f: A -> Option<B>)
    ensures Collect(a + b, f) == Collect(a, f) + Collect(b, f)
  {
    if b == [] {
      assert a + b == a;
    } else {
      CollectConcat(a, b[..|b| - 1], f);
      Init(a, b);
    }
  }

  lemma {:induction false} HavingConcat<A, B>(a: seq<A>, b: seq<A>, f: A -> Option<B>)
    ensures Having(a + b, f) == Having(a, f) + Having(b, f)
  {
    if b == [] {
      assert a + b == a;
    } else {
      HavingConcat(a, b[..|b| - 1], f);
      Init(a, b);
    }
  }

  /** The two halves make up the whole. */
  lemma {:induction false} HalvesOf<A, B>(s: seq<A>, f: A -> Option<B>)
    ensures multiset(s) == multiset(Having(s, f)) + multiset(Lacking(s, f))
  {
    if s == [] {
    } else {
      var init, last := s[..|s| - 1], s[|s| - 1];
      HalvesOf(init, f);
      assert s == init + [last];
    }
  }

  /** The images are those of the first half. */
  lemma {:induction false} ImagesOfHalves<A, B>(s: seq<A>, f: A -> Option<B>)
    ensures Collect(Having(s, f), f) == Collect(s, f)
    ensures Collect(Lacking(s, f), f) == []
  {
    if s == [] {
    } else {
      var init, last := s[..|s| - 1], s[|s| - 1];
      ImagesOfHalves(init, f);
      One(last, f);
      if f(last).Some? {
        CollectConcat(Having(init, f), [last], f);
      } else {
        CollectConcat(Lacking(init, f), [last], f);
      }
    }
  }

  lemma One<A, B>(a: A, f: A -> Option<B>)
    ensures Collect([a], f) == if f(a).Some? then [f(a).value] else []
  {
    assert [a][..0] == [];
  }

  /** What is left of a list when batches have been taken off its front as long as there were any. */
  function LeftOver<A>(s: seq<A>, size: nat): (r: seq<A>)
    ensures |r| < Max(1, size)
  {
    if |s| < Max(1, size) then s else LeftOver(s[Max(1, size)..], size)
  }

  lemma {:induction false} LeftOverNext<A>(s: seq<A>, a: A, size: nat)
    ensures LeftOver(s + [a], size) == if |LeftOver(s, size)| + 1 < size then LeftOver(s, size) + [a] else []
  {
    var batch := Max(1, size);
    if |s| >= batch {
      assert (s + [a])[batch..] == s[batch..] + [a];
      LeftOverNext(s[batch..], a, size);
    } else if |s| + 1 == batch {
      assert (s + [a])[batch..] == [];
    }
  }
}
