/** Concatenation of a sequence of sequences, as itertools.chain and the
    successive writes of a text file produce it. */
module Sequences {

  function Flatten<T>(xss: seq<seq<T>>): seq<T> {
    if |xss| == 0 then [] else Flatten(xss[..|xss| - 1]) + xss[|xss| - 1]
  }

  lemma {:induction false} FlattenAppend<T>(xss: seq<seq<T>>, yss: seq<seq<T>>)
    ensures Flatten(xss + yss) == Flatten(xss) + Flatten(yss)
    decreases |yss|
  {
    if |yss| == 0 {
      assert xss + yss == xss;
    } else {
      var front, last := yss[..|yss| - 1], yss[|yss| - 1];
      AppendDropLast(xss, yss);
      FlattenAppend(xss, front);
      AppendAssoc(Flatten(xss), Flatten(front), last);
    }
  }

  /** Dropping the last element of a + b, for a non-empty b. */
  lemma AppendDropLast<T>(a: seq<T>, b: seq<T>)
    requires |b| > 0
    ensures (a + b)[..|a + b| - 1] == a + b[..|b| - 1]
    ensures (a + b)[|a + b| - 1] == b[|b| - 1]
  {
  }

  lemma FlattenSingleton<T>(xs: seq<T>)
    ensures Flatten([xs]) == xs
  {
    assert [xs][..0] == [];
  }

  /** Part i of xss stands between the parts before it and the parts after it. */
  lemma FlattenSplit<T>(xss: seq<seq<T>>, i: nat)
    requires i < |xss|
    ensures Flatten(xss) == Flatten(xss[..i]) + xss[i] + Flatten(xss[i + 1..])
  {
    FlattenTakeOneMore(xss, i);
    FlattenTakeDrop(xss, i + 1);
  }

  lemma FlattenTakeDrop<T>(xss: seq<seq<T>>, k: nat)
    requires k <= |xss|
    ensures Flatten(xss) == Flatten(xss[..k]) + Flatten(xss[k..])
  {
    TakeDrop(xss, k);
    FlattenAppend(xss[..k], xss[k..]);
  }

  /** Dropping a prefix of xs + [x] keeps x last. */
  lemma DropSnoc<T>(xs: seq<T>, x: T, m: nat)
    requires m <= |xs|
    ensures (xs + [x])[m..] == xs[m..] + [x]
  {
  }

  /** Writing one more part extends the text by that part. */
  lemma FlattenTakeOneMore<T>(xss: seq<seq<T>>, k: nat)
    requires k < |xss|
    ensures Flatten(xss[..k + 1]) == Flatten(xss[..k]) + xss[k]
  {
    assert xss[..k + 1][..k] == xss[..k];
  }

  lemma AppendAssoc<T>(a: seq<T>, b: seq<T>, c: seq<T>)
    ensures a + b + c == a + (b + c)
  {
  }

  lemma TakeAll<T>(xs: seq<T>)
    ensures xs[..|xs|] == xs
  {
  }

  lemma TakeDrop<T>(xs: seq<T>, k: nat)
    requires k <= |xs|
    ensures xs[..k] + xs[k..] == xs
  {
  }

  lemma SliceTake<T>(s: seq<T>, a: nat, c: nat, n: nat)
    requires a + n <= c <= |s|
    ensures s[a..c][..n] == s[a..a + n]
  {
  }

  lemma SliceDrop<T>(s: seq<T>, a: nat, c: nat, n: nat)
    requires a + n <= c <= |s|
    ensures s[a..c][n..] == s[a + n..c]
  {
  }

  /** Taking a prefix of xs + [x] that stops within xs. */
  lemma TakeSnoc<T>(xs: seq<T>, x: T, m: nat)
    requires m <= |xs|
    ensures (xs + [x])[..m] == xs[..m]
  {
  }
}
