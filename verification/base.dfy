/** Vocabulary shared by every layer of the generator: the exceptions a
    malformed pattern raises, character bands, and the Python string
    operations the generator leans on (`s[1:-1]`, `str.split`). */
module Base {

  /** The Python exceptions the generator lets escape on malformed input. */
  datatype Error = IndexError | KeyError | ValueError

  /** A computation that either succeeds or raises one of the exceptions above. */
  datatype Result<+T> = Ok(value: T) | Err(error: Error) {
    predicate IsFailure() {
      Err?
    }

    function PropagateFailure<U>(): Result<U>
      requires Err?
    {
      Err(error)
    }

    function Extract(): T
      requires Ok?
    {
      value
    }
  }

  /** Every character of `s` has a code in `[lo, hi]`. */
  predicate AllIn(s: string, lo: int, hi: int) {
    forall i :: 0 <= i < |s| ==> lo <= s[i] as int <= hi
  }

  /** Seven-bit ASCII text: the alphabet this model is restricted to. */
  predicate IsAscii(s: string) {
    AllIn(s, 0, 127)
  }

  /** Printable ASCII text, codes 32 to 126. */
  predicate IsPrintable(s: string) {
    AllIn(s, 32, 126)
  }

  /** A band is kept by concatenation. */
  lemma AllInConcat(a: string, b: string, lo: int, hi: int)
    requires AllIn(a, lo, hi) && AllIn(b, lo, hi)
    ensures AllIn(a + b, lo, hi)
  {
    forall i | 0 <= i < |a + b|
      ensures lo <= (a + b)[i] as int <= hi
    {
      if i >= |a| {
        assert (a + b)[i] == b[i - |a|];
      }
    }
  }

  /** A band is kept by taking a slice. */
  lemma AllInSlice(s: string, i: int, j: int, lo: int, hi: int)
    requires 0 <= i <= j <= |s| && AllIn(s, lo, hi)
    ensures AllIn(s[i..j], lo, hi)
  {
    forall k | 0 <= k < j - i
      ensures lo <= s[i..j][k] as int <= hi
    {
      assert s[i..j][k] == s[i + k];
    }
  }

  /** Both bands of interest survive slicing. */
  lemma SliceBands(s: string, i: int, j: int)
    requires 0 <= i <= j <= |s|
    ensures IsAscii(s) ==> IsAscii(s[i..j])
    ensures IsPrintable(s) ==> IsPrintable(s[i..j])
  {
    if IsAscii(s) {
      AllInSlice(s, i, j, 0, 127);
    }
    if IsPrintable(s) {
      AllInSlice(s, i, j, 32, 126);
    }
  }

  /** Both bands of interest survive concatenation. */
  lemma ConcatBands(a: string, b: string)
    ensures IsAscii(a) && IsAscii(b) ==> IsAscii(a + b)
    ensures IsPrintable(a) && IsPrintable(b) ==> IsPrintable(a + b)
  {
    if IsAscii(a) && IsAscii(b) {
      AllInConcat(a, b, 0, 127);
    }
    if IsPrintable(a) && IsPrintable(b) {
      AllInConcat(a, b, 32, 126);
    }
  }

  /** A string cut in two and glued back is itself. */
  lemma CutJoin(t: string, i: nat)
    requires i <= |t|
    ensures t[..i] + t[i..] == t
  {
  }

  /** Python's `s[1:-1]`: drops the first and last characters, and is empty
      (rather than an error) when `s` has fewer than two characters. */
  function Inner(s: string): (r: string)
    ensures |s| >= 2 ==> |r| == |s| - 2 && forall i :: 0 <= i < |r| ==> r[i] == s[i + 1]
    ensures |s| < 2 ==> r == ""
  {
    if |s| >= 2 then s[1..|s| - 1] else ""
  }

  lemma AllInInner(s: string, lo: int, hi: int)
    requires AllIn(s, lo, hi)
    ensures AllIn(Inner(s), lo, hi)
  {
    if |s| >= 2 {
      AllInSlice(s, 1, |s| - 1, lo, hi);
    }
  }

  /** Both bands of interest survive dropping the delimiters. */
  lemma InnerBands(s: string)
    ensures IsAscii(s) ==> IsAscii(Inner(s))
    ensures IsPrintable(s) ==> IsPrintable(Inner(s))
  {
    if IsAscii(s) {
      AllInInner(s, 0, 127);
    }
    if IsPrintable(s) {
      AllInInner(s, 32, 126);
    }
  }

  /** Position of the first occurrence of `c` in `s`. */
  function IndexOf(s: string, c: char): (i: nat)
    requires c in s
    ensures i < |s| && s[i] == c && c !in s[..i]
  {
    if s[0] == c then 0
    else
      var i := 1 + IndexOf(s[1..], c);
      assert s[..i] == [s[0]] + s[1..][..i - 1];
      i
  }

  /** Inverse of `Split`: the parts glued back together with `sep`. */
  function Join(parts: seq<string>, sep: char): string
    requires |parts| >= 1
  {
    if |parts| == 1 then parts[0] else parts[0] + [sep] + Join(parts[1..], sep)
  }

  /** Python's `s.split(sep)` for a one-character separator: the maximal
      separator-free runs of `s`, in order; `s` itself when `sep` does not occur. */
  function Split(s: string, sep: char): (parts: seq<string>)
    ensures |parts| >= 1
    ensures forall k :: 0 <= k < |parts| ==> sep !in parts[k]
    ensures Join(parts, sep) == s
    ensures sep !in s <==> |parts| == 1
    decreases |s|
  {
    if sep !in s then [s]
    else
      var i := IndexOf(s, sep);
      var parts := [s[..i]] + Split(s[i + 1..], sep);
      assert s == s[..i] + [sep] + s[i + 1..];
      parts
  }

  /** Splitting is the exact inverse of joining separator-free parts. */
  lemma {:induction false} SplitJoin(parts: seq<string>, sep: char)
    requires |parts| >= 1
    requires forall k :: 0 <= k < |parts| ==> sep !in parts[k]
    ensures Split(Join(parts, sep), sep) == parts
  {
    if |parts| > 1 {
      var s := Join(parts, sep);
      var rest := Join(parts[1..], sep);
      assert s == parts[0] + [sep] + rest;
      assert s[|parts[0]|] == sep;
      assert s[..|parts[0]|] == parts[0];
      assert IndexOf(s, sep) == |parts[0]|;
      assert s[|parts[0]| + 1..] == rest;
      SplitJoin(parts[1..], sep);
    }
  }

  /** Two separator-free texts joined by the separator split back into the two. */
  lemma SplitTwo(a: string, b: string, sep: char)
    requires sep !in a && sep !in b
    ensures Split(a + [sep] + b, sep) == [a, b]
  {
    assert [a, b][1..] == [b];
    assert Join([a, b], sep) == a + [sep] + b;
    SplitJoin([a, b], sep);
  }

  /** Every part of a split is drawn from the characters of the whole. */
  lemma AllInSplit(s: string, sep: char, lo: int, hi: int)
    requires AllIn(s, lo, hi)
    ensures forall k :: 0 <= k < |Split(s, sep)| ==> AllIn(Split(s, sep)[k], lo, hi)
    decreases |s|
  {
    if sep in s {
      var i := IndexOf(s, sep);
      AllInSlice(s, 0, i, lo, hi);
      AllInSlice(s, i + 1, |s|, lo, hi);
      AllInSplit(s[i + 1..], sep, lo, hi);
    }
  }

  /** Both bands of interest survive splitting. */
  lemma SplitBands(s: string, sep: char)
    ensures IsAscii(s) ==> forall k :: 0 <= k < |Split(s, sep)| ==> IsAscii(Split(s, sep)[k])
    ensures IsPrintable(s) ==> forall k :: 0 <= k < |Split(s, sep)| ==> IsPrintable(Split(s, sep)[k])
  {
    if IsAscii(s) {
      AllInSplit(s, sep, 0, 127);
    }
    if IsPrintable(s) {
      AllInSplit(s, sep, 32, 126);
    }
  }
}
