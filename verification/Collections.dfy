/** Sets, sequences, texts and small types that several components share. */
module Collections {

  lemma Pick<T>(s: set<T>) returns (x: T)
    requires s != {}
    ensures x in s
  {
    x :| x in s;
  }

  lemma SubsetIsSmaller<T>(a: set<T>, b: set<T>)
    requires a <= b
    ensures |a| <= |b|
    ensures |a| == |b| ==> a == b
  {
    assert b == a + (b - a);
    assert |b| == |a| + |b - a|;
  }

  lemma EqualDifferences<T>(a: set<T>, b: set<T>)
    requires |a| == |b|
    ensures |a - b| == |b - a|
  {
    assert a == (a - b) + a * b && b == (b - a) + a * b;
  }

  lemma {:induction false} InjectiveSize<A, B>(f: map<A, B>)
    requires forall x, y :: x in f && y in f && x != y ==> f[x] != f[y]
    ensures |f.Keys| == |f.Values|
  {
    if f.Keys == {} {
      assert f.Values == {};
    } else {
      var x := Pick(f.Keys);
      var g := f - {x};
      InjectiveSize(g);
      assert g.Keys == f.Keys - {x};
      forall v | v in f.Values - {f[x]} ensures v in g.Values {
        var y :| y in f && f[y] == v;
        assert y in g && g[y] == v;
      }
      assert g.Values == f.Values - {f[x]};
    }
  }

  /** The integers from lo up to, not including, hi. */
  function Interval(lo: int, hi: int): (s: set<int>)
    requires lo <= hi
    ensures forall x :: x in s <==> lo <= x < hi
    ensures |s| == hi - lo
    decreases hi - lo
  {
    if lo == hi then {} else Interval(lo, hi - 1) + {hi - 1}
  }

  ghost predicate Distinct<T>(s: seq<T>) {
    forall i, j :: 0 <= i < j < |s| ==> s[i] != s[j]
  }

  lemma EmptyHasNothing<T>(s: set<T>, x: T)
    requires s == {}
    ensures x !in s
  {
  }

  ghost predicate PairwiseDisjoint<T>(sets: seq<set<T>>) {
    forall i, j :: 0 <= i < j < |sets| ==> sets[i] !! sets[j]
  }

  /** s with its element at position g left out. */
  function Without<T>(s: seq<T>, g: nat): (r: seq<T>)
    requires g < |s|
    ensures |r| == |s| - 1
    ensures forall i :: 0 <= i < |r| ==> r[i] == s[if i < g then i else i + 1]
  {
    s[..g] + s[g + 1..]
  }

  function Min(a: int, b: int): int {
    if a < b then a else b
  }

  function Max(a: int, b: int): int {
    if a < b then b else a
  }

  datatype Option<T> = None | Some(value: T)

  type byte = x: int | 0 <= x < 256

  /** The non-empty parts of a text between its dots. */
  function Split(text: string): (parts: seq<string>)
    ensures forall i :: 0 <= i < |parts| ==> parts[i] != []
  {
    SplitFrom([], text)
  }

  function SplitFrom(current: string, text: string): (parts: seq<string>)
    ensures forall i :: 0 <= i < |parts| ==> parts[i] != []
    decreases |text|
  {
    if text == [] then (if current == [] then [] else [current])
    else if text[0] == '.' then (if current == [] then [] else [current]) + SplitFrom([], text[1..])
    else SplitFrom(current + [text[0]], text[1..])
  }
}
