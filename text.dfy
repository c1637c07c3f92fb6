/**
 * The few Python `str` operations the core relies on: `isspace`, `lower`,
 * `strip`, `rjust` and repetition `c * n`.
 */
module Text {

  /** Python's `str.isspace` (the characters `strip()` removes). */
  predicate IsSpace(c: char)
  {
    var k := c as int;
    (9 <= k <= 13) || (28 <= k <= 32) || k == 0x85 || k == 0xA0 || k == 0x1680
    || (0x2000 <= k <= 0x200A) || k == 0x2028 || k == 0x2029 || k == 0x202F
    || k == 0x205F || k == 0x3000
  }

  predicate AllSpace(s: string)
  {
    forall i :: 0 <= i < |s| ==> IsSpace(s[i])
  }

  /** No white space at either end. */
  predicate Unpadded(s: string)
  {
    |s| > 0 ==> !IsSpace(s[0]) && !IsSpace(s[|s| - 1])
  }

  predicate IsUpper(c: char)
  {
    'A' <= c <= 'Z'
  }

  function LowerChar(c: char): (d: char)
    ensures !IsUpper(d)
    ensures !IsUpper(c) ==> d == c
    ensures IsSpace(d) <==> IsSpace(c)
  {
    if IsUpper(c) then (c as int + ('a' as int - 'A' as int)) as char else c
  }

  predicate NoUpper(s: string)
  {
    forall i :: 0 <= i < |s| ==> !IsUpper(s[i])
  }

  /** `s.lower()` on ASCII letters. */
  function Lower(s: string): (r: string)
    ensures |r| == |s|
  {
    if |s| == 0 then "" else Lower(s[..|s| - 1]) + [LowerChar(s[|s| - 1])]
  }

  /** `lower()` maps every character on its own, and leaves no upper-case letter. */
  lemma {:induction false} LowerChars(s: string)
    ensures forall i :: 0 <= i < |s| ==> Lower(s)[i] == LowerChar(s[i])
    ensures NoUpper(Lower(s))
  {
    if |s| > 0 {
      LowerChars(s[..|s| - 1]);
      assert forall i :: 0 <= i < |s| - 1 ==> Lower(s)[i] == Lower(s[..|s| - 1])[i];
    }
  }

  lemma LowerOfNoUpper(s: string)
    requires NoUpper(s)
    ensures Lower(s) == s
  {
    LowerChars(s);
    assert forall i :: 0 <= i < |s| ==> Lower(s)[i] == s[i];
  }

  /** `s.lstrip()`: `s` without its leading white space. */
  function TrimStart(s: string): (r: string)
    ensures |r| <= |s|
  {
    if |s| > 0 && IsSpace(s[0]) then TrimStart(s[1..]) else s
  }

  /** What `lstrip()` leaves is a suffix of `s` that does not start with white space. */
  lemma {:induction false} TrimStartShape(s: string)
    ensures TrimStart(s) == s[|s| - |TrimStart(s)|..]
    ensures |TrimStart(s)| > 0 ==> !IsSpace(TrimStart(s)[0])
    decreases |s|
  {
    if |s| > 0 && IsSpace(s[0]) {
      TrimStartShape(s[1..]);
      assert s[1..][|s| - 1 - |TrimStart(s)|..] == s[|s| - |TrimStart(s)|..];
    }
  }

  /** `s.rstrip()`: `s` without its trailing white space. */
  function TrimEnd(s: string): (r: string)
    ensures |r| <= |s|
  {
    if |s| > 0 && IsSpace(s[|s| - 1]) then TrimEnd(s[..|s| - 1]) else s
  }

  /** What `rstrip()` leaves is a prefix of `s` that does not end with white space. */
  lemma {:induction false} TrimEndShape(s: string)
    ensures TrimEnd(s) == s[..|TrimEnd(s)|]
    ensures |TrimEnd(s)| > 0 ==> !IsSpace(TrimEnd(s)[|TrimEnd(s)| - 1])
    decreases |s|
  {
    if |s| > 0 && IsSpace(s[|s| - 1]) {
      TrimEndShape(s[..|s| - 1]);
      assert s[..|s| - 1][..|TrimEnd(s)|] == s[..|TrimEnd(s)|];
    }
  }

  /** `strip()` leaves no white space at either end. */
  lemma StripShape(s: string)
    ensures Unpadded(TrimEnd(TrimStart(s)))
  {
    var t := TrimStart(s);
    TrimStartShape(s);
    TrimEndShape(t);
    var r := TrimEnd(t);
    if |r| > 0 {
      assert r[0] == t[0];
    }
  }

  /** `s.strip()`. */
  function Strip(s: string): (r: string)
    ensures Unpadded(r)
  {
    StripShape(s);
    TrimEnd(TrimStart(s))
  }

  /** The normalisation applied to every size and dimension name: `name.lower().strip()`. */
  function Normalize(s: string): (r: string)
    ensures Unpadded(r)
  {
    StripShape(Lower(s));
    TrimEnd(TrimStart(Lower(s)))
  }

  /** A normalised name holds no upper-case letter. */
  lemma NormalizeNoUpper(s: string)
    ensures NoUpper(Normalize(s))
  {
    var l := Lower(s);
    LowerChars(s);
    var t := TrimStart(l);
    TrimStartShape(l);
    NoUpperSlice(l, |l| - |t|, |l|);
    var r := TrimEnd(t);
    TrimEndShape(t);
    NoUpperSlice(t, 0, |r|);
  }

  lemma NoUpperSlice(s: string, lo: nat, hi: nat)
    requires NoUpper(s) && lo <= hi <= |s|
    ensures NoUpper(s[lo..hi])
  {
    forall k | 0 <= k < hi - lo ensures !IsUpper(s[lo..hi][k]) {
      assert s[lo..hi][k] == s[lo + k];
    }
  }

  lemma StripOfUnpadded(s: string)
    requires Unpadded(s)
    ensures Strip(s) == s
  {
  }

  lemma {:induction false} TrimStartSpacePrefix(p: string, x: string)
    requires AllSpace(p)
    ensures TrimStart(p + x) == TrimStart(x)
    decreases |p|
  {
    if |p| > 0 {
      assert (p + x)[0] == p[0] && IsSpace(p[0]);
      assert (p + x)[1..] == p[1..] + x;
      assert AllSpace(p[1..]);
      TrimStartSpacePrefix(p[1..], x);
    } else {
      assert p + x == x;
    }
  }

  lemma {:induction false} TrimEndSpaceSuffix(x: string, p: string)
    requires AllSpace(p)
    ensures TrimEnd(x + p) == TrimEnd(x)
    decreases |p|
  {
    if |p| > 0 {
      assert (x + p)[|x + p| - 1] == p[|p| - 1] && IsSpace(p[|p| - 1]);
      assert (x + p)[..|x + p| - 1] == x + p[..|p| - 1];
      assert AllSpace(p[..|p| - 1]);
      TrimEndSpaceSuffix(x, p[..|p| - 1]);
    } else {
      assert x + p == x;
    }
  }

  lemma {:induction false} TrimStartAppend(x: string, y: string)
    ensures !AllSpace(x) ==> TrimStart(x + y) == TrimStart(x) + y
    ensures AllSpace(x) ==> TrimStart(x + y) == TrimStart(y)
    decreases |x|
  {
    if |x| > 0 {
      assert (x + y)[0] == x[0];
      assert (x + y)[1..] == x[1..] + y;
      if IsSpace(x[0]) {
        assert AllSpace(x) == AllSpace(x[1..]);
        TrimStartAppend(x[1..], y);
      }
    } else {
      assert x + y == y;
    }
  }

  /** `strip()` ignores any white space added around its argument. */
  lemma StripPadded(text: string, pad1: string, pad2: string)
    requires AllSpace(pad1) && AllSpace(pad2)
    ensures Strip(pad1 + text + pad2) == Strip(text)
  {
    assert pad1 + text + pad2 == pad1 + (text + pad2);
    TrimStartSpacePrefix(pad1, text + pad2);
    TrimStartAppend(text, pad2);
    if AllSpace(text) {
      TrimStartSpacePrefix(pad2, "");
      assert pad2 + "" == pad2;
      TrimStartSpacePrefix(text, "");
      assert text + "" == text;
    } else {
      TrimEndSpaceSuffix(TrimStart(text), pad2);
    }
  }

  /** Normalising twice is normalising once. */
  lemma NormalizeIdempotent(s: string)
    ensures Normalize(Normalize(s)) == Normalize(s)
  {
    var n := Normalize(s);
    NormalizeNoUpper(s);
    LowerOfNoUpper(n);
  }

  /** `lower()` works character by character, so it distributes over concatenation. */
  lemma LowerAppend(x: string, y: string)
    ensures Lower(x + y) == Lower(x) + Lower(y)
  {
    LowerChars(x + y);
    LowerChars(x);
    LowerChars(y);
    assert forall i :: 0 <= i < |x + y| ==> Lower(x + y)[i] == (Lower(x) + Lower(y))[i];
  }

  /** White space has no upper-case letter. */
  lemma SpaceNoUpper(p: string)
    requires AllSpace(p)
    ensures NoUpper(p)
  {
  }

  /** The normalisation ignores the case of letters. */
  lemma NormalizeIgnoresCase(s: string)
    ensures Normalize(Lower(s)) == Normalize(s)
  {
    LowerChars(s);
    LowerOfNoUpper(Lower(s));
  }

  /** The normalisation ignores white space added around the name. */
  lemma NormalizeIgnoresPadding(pad1: string, s: string, pad2: string)
    requires AllSpace(pad1) && AllSpace(pad2)
    ensures Normalize(pad1 + s + pad2) == Normalize(s)
  {
    LowerAppend(pad1 + s, pad2);
    LowerAppend(pad1, s);
    SpaceNoUpper(pad1);
    SpaceNoUpper(pad2);
    LowerOfNoUpper(pad1);
    LowerOfNoUpper(pad2);
    assert Lower(pad1 + s + pad2) == pad1 + Lower(s) + pad2;
    StripPadded(Lower(s), pad1, pad2);
  }

  /** A name that is already lower case and unpadded is its own normalisation. */
  lemma NormalizeOfNormal(s: string)
    requires NoUpper(s) && Unpadded(s)
    ensures Normalize(s) == s
  {
    LowerOfNoUpper(s);
  }

  /** `c * n`: `n` copies of `c`, none when `n <= 0`. */
  function Repeat(c: char, n: int): (r: string)
    ensures |r| == if n > 0 then n else 0
    decreases n
  {
    if n <= 0 then "" else Repeat(c, n - 1) + [c]
  }

  lemma {:induction false} RepeatChars(c: char, n: int)
    ensures forall i :: 0 <= i < |Repeat(c, n)| ==> Repeat(c, n)[i] == c
    decreases n
  {
    if n > 0 {
      RepeatChars(c, n - 1);
      assert forall i :: 0 <= i < n - 1 ==> Repeat(c, n)[i] == Repeat(c, n - 1)[i];
    }
  }

  /** `s.rjust(width)`: `s` padded on the left with spaces to `width`, never truncated. */
  function RJust(s: string, width: int): (r: string)
    ensures |r| == if width > |s| then width else |s|
  {
    Repeat(' ', width - |s|) + s
  }

  /** `rjust` keeps the text whole at the end and adds spaces only in front. */
  lemma RJustPadding(s: string, width: int)
    ensures var r := RJust(s, width);
      r[|r| - |s|..] == s &&
      forall i :: 0 <= i < |r| - |s| ==> r[i] == ' '
  {
    RepeatChars(' ', width - |s|);
    var pad := Repeat(' ', width - |s|);
    assert (pad + s)[|pad|..] == s;
  }

  /** The texts one after the other. */
  function Concat(xs: seq<string>): string
  {
    if |xs| == 0 then "" else Concat(xs[..|xs| - 1]) + xs[|xs| - 1]
  }

  lemma ConcatSingle(x: string)
    ensures Concat([x]) == x
  {
    assert [x][..0] == [];
  }

  lemma {:induction false} ConcatAppend(xs: seq<string>, ys: seq<string>)
    ensures Concat(xs + ys) == Concat(xs) + Concat(ys)
    decreases |ys|
  {
    if |ys| == 0 {
      assert xs + ys == xs;
    } else {
      var zs, shorter := xs + ys, ys[..|ys| - 1];
      assert zs[..|zs| - 1] == xs + shorter;
      assert zs[|zs| - 1] == ys[|ys| - 1];
      ConcatAppend(xs, shorter);
    }
  }

  /** Sequences that agree at every index are equal. */
  lemma SameAtEveryIndex<T>(a: seq<T>, b: seq<T>)
    requires |a| == |b| && forall k :: 0 <= k < |a| ==> a[k] == b[k]
    ensures a == b
  {
  }

  /** A sequence that agrees with another and then has one more element is their extension. */
  lemma SnocOfPointwise<T>(longer: seq<T>, shorter: seq<T>, last: T)
    requires |longer| == |shorter| + 1 && longer[|shorter|] == last
    requires forall k :: 0 <= k < |shorter| ==> longer[k] == shorter[k]
    ensures longer == shorter + [last]
  {
    assert forall k :: 0 <= k < |longer| ==> longer[k] == (shorter + [last])[k];
  }
}
