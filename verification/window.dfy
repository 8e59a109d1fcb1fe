/** The bounded descriptor window kept for every enrolled user: at most
    MaxWindow face descriptors, oldest first, evicted from the front.
    Both the enrollment path and the adaptive update of the check path trim
    their arrays with `slice(-10)`, modelled here by KeepLast. */
module Window {

  /** A face descriptor as the recognition network produces it: a vector of
      floating-point numbers. The model never looks inside one. */
  type Descriptor = seq<real>

  /** The largest number of descriptors kept per user. */
  const MaxWindow: nat := 10

  /** The last n elements of s, or all of s when it is shorter than n; with
      n = MaxWindow this is the source's `slice(-10)`. */
  function KeepLast<T>(s: seq<T>, n: nat): (r: seq<T>)
    ensures |r| == if |s| <= n then |s| else n
    ensures r == s[|s| - |r|..]
  {
    if |s| <= n then s else s[|s| - n..]
  }

  /** The adaptive update of one window: append the descriptor, keep the
      last MaxWindow. */
  function Push(w: seq<Descriptor>, d: Descriptor): seq<Descriptor>
  {
    KeepLast(w + [d], MaxWindow)
  }

  /** One push grows the window by one until it is full, puts the newcomer
      last, and keeps what remains of the old window as a suffix of it:
      eviction only from the front, relative order kept. */
  lemma PushShape(w: seq<Descriptor>, d: Descriptor)
    ensures |Push(w, d)| == if |w| < MaxWindow then |w| + 1 else MaxWindow
    ensures Push(w, d)[|Push(w, d)| - 1] == d
    ensures Push(w, d)[..|Push(w, d)| - 1] == w[|w| + 1 - |Push(w, d)|..]
    ensures |w| < MaxWindow ==> Push(w, d) == w + [d]
  {
    var s, r := w + [d], Push(w, d);
    assert s[..|s| - 1] == w;
    assert r[..|r| - 1] == s[|s| - |r|..|s| - 1];
  }

  /** The window after a series of adaptive updates, each pushing one
      descriptor, in arrival order. */
  function PushAll(w: seq<Descriptor>, ds: seq<Descriptor>): seq<Descriptor>
  {
    if ds == [] then w else Push(PushAll(w, ds[..|ds| - 1]), ds[|ds| - 1])
  }

  /** Trimming twice is trimming once: appending to an already trimmed window
      and trimming again keeps the same elements as trimming the whole
      history. */
  lemma KeepLastAbsorbs<T>(a: seq<T>, b: seq<T>, n: nat)
    ensures KeepLast(KeepLast(a, n) + b, n) == KeepLast(a + b, n)
  {
    if |a| > n {
      TrimmedThenAppended(a, b, n);
      KeepLastIgnoresPrefix(a + b, |a| - n, n);
    }
  }

  /** A trimmed sequence with b appended is a suffix of the whole history. */
  lemma TrimmedThenAppended<T>(a: seq<T>, b: seq<T>, n: nat)
    requires |a| > n
    ensures KeepLast(a, n) + b == (a + b)[|a| - n..]
  {
    SuffixOfConcat(a, b, |a| - n);
  }

  /** Dropping elements that lie before the last n leaves the last n as they
      were. */
  lemma KeepLastIgnoresPrefix<T>(s: seq<T>, k: nat, n: nat)
    requires k + n <= |s|
    ensures KeepLast(s[k..], n) == KeepLast(s, n)
  {
    SuffixOfSuffix(s, k, |s| - k - n);
  }

  lemma SuffixOfConcat<T>(a: seq<T>, b: seq<T>, k: nat)
    requires k <= |a|
    ensures a[k..] + b == (a + b)[k..]
  {
  }

  lemma SuffixOfSuffix<T>(s: seq<T>, i: nat, j: nat)
    requires i + j <= |s|
    ensures s[i..][j..] == s[i + j..]
  {
  }

  /** Any number of pushes onto a window that respects the bound leaves
      exactly the last MaxWindow descriptors of the whole history, in arrival
      order; in particular, starting from an empty window after N pushes the
      length is min(N, MaxWindow). */
  lemma {:induction false} SlidingWindow(w: seq<Descriptor>, ds: seq<Descriptor>)
    requires |w| <= MaxWindow
    ensures PushAll(w, ds) == KeepLast(w + ds, MaxWindow)
  {
    if ds == [] {
      assert w + ds == w;
    } else {
      var init, d := ds[..|ds| - 1], ds[|ds| - 1];
      var prev := PushAll(w, init);
      assert PushAll(w, ds) == KeepLast(prev + [d], MaxWindow);
      SlidingWindow(w, init);
      KeepLastAbsorbs(w + init, [d], MaxWindow);
      assert (w + init) + [d] == w + ds;
    }
  }
}
