/**
 * The few Python string operations the plugin relies on, over a fixed
 * whitespace set: `str.strip()`, `str.startswith`, `in` on strings,
 * `str.split(sep)`, `str.splitlines()` (on '\n' only) and `str(int)`.
 */
module Text {

  /** The whitespace that `str.strip()` removes, as far as this model goes. */
  predicate IsSpace(c: char) {
    c == ' ' || c == '\t' || c == '\n' || c == '\r' || c == '\U{000B}' || c == '\U{000C}'
  }

  predicate AllSpace(s: string) {
    forall i :: 0 <= i < |s| ==> IsSpace(s[i])
  }

  /** `s.lstrip()` */
  function TrimStart(s: string): (r: string)
    ensures |r| <= |s| && r == s[|s| - |r|..]
    ensures r == [] || !IsSpace(r[0])
    decreases |s|
  {
    if s != [] && IsSpace(s[0]) then TrimStart(s[1..]) else s
  }

  /** What `lstrip` drops is whitespace. */
  lemma {:induction false} TrimStartDropsSpace(s: string)
    ensures AllSpace(s[..|s| - |TrimStart(s)|])
    decreases |s|
  {
    if s != [] && IsSpace(s[0]) {
      TrimStartDropsSpace(s[1..]);
      var n := |s| - |TrimStart(s)|;
      forall k | 0 <= k < n ensures IsSpace(s[k]) {
        if k > 0 { assert s[k] == s[1..][..n - 1][k - 1]; }
      }
    }
  }

  /** `s.rstrip()` */
  function TrimEnd(s: string): (r: string)
    ensures |r| <= |s| && r == s[..|r|]
    ensures r == [] || !IsSpace(r[|r| - 1])
    decreases |s|
  {
    if s != [] && IsSpace(s[|s| - 1]) then TrimEnd(s[..|s| - 1]) else s
  }

  /** What `rstrip` drops is whitespace. */
  lemma {:induction false} TrimEndDropsSpace(s: string)
    ensures AllSpace(s[|TrimEnd(s)|..])
    decreases |s|
  {
    if s != [] && IsSpace(s[|s| - 1]) {
      var init := s[..|s| - 1];
      TrimEndDropsSpace(init);
      var n := |TrimEnd(s)|;
      forall k | n <= k < |s| ensures IsSpace(s[k]) {
        if k < |s| - 1 { assert s[k] == init[n..][k - n]; }
      }
    }
  }

  /** Where the text Strip keeps begins in its input. */
  function StripStart(s: string): nat {
    |s| - |TrimStart(s)|
  }

  /** `s.strip()`: the text between the leading and the trailing whitespace. */
  function Strip(s: string): (r: string)
    ensures r == [] || (!IsSpace(r[0]) && !IsSpace(r[|r| - 1]))
  {
    TrimEnd(TrimStart(s))
  }

  /** What Strip keeps is a slice of its input. */
  lemma StripIsSlice(s: string)
    ensures StripStart(s) + |Strip(s)| <= |s| && Strip(s) == s[StripStart(s)..StripStart(s) + |Strip(s)|]
  {
    var t := TrimStart(s);
    PrefixOfSuffix(s, t, TrimEnd(t));
  }

  /** A prefix of a suffix is a slice. */
  lemma PrefixOfSuffix<T>(s: seq<T>, t: seq<T>, r: seq<T>)
    requires |t| <= |s| && t == s[|s| - |t|..] && |r| <= |t| && r == t[..|r|]
    ensures |s| - |t| + |r| <= |s| && r == s[|s| - |t|..|s| - |t| + |r|]
  {
  }

  /** What Strip keeps is a slice of its input with only whitespace on either side. */
  lemma StripSpan(s: string)
    ensures StripStart(s) + |Strip(s)| <= |s| && Strip(s) == s[StripStart(s)..StripStart(s) + |Strip(s)|]
    ensures AllSpace(s[..StripStart(s)]) && AllSpace(s[StripStart(s) + |Strip(s)|..])
  {
    var t := TrimStart(s);
    var i := |s| - |t|;
    StripIsSlice(s);
    TrimStartDropsSpace(s);
    TrimEndDropsSpace(t);
    DropOfSuffix(s, i, |Strip(s)|);
  }

  lemma DropOfSuffix<T>(s: seq<T>, i: nat, n: nat)
    requires i + n <= |s|
    ensures s[i..][n..] == s[i + n..]
  {
  }

  /** Strip keeps every non-space character of its input: the kept span covers positions a and b - 1. */
  lemma StripCovers(s: string, a: nat, b: nat)
    requires a < b <= |s| && !IsSpace(s[a]) && !IsSpace(s[b - 1])
    ensures StripStart(s) <= a && b <= StripStart(s) + |Strip(s)|
  {
    var i := StripStart(s);
    var r := Strip(s);
    StripSpan(s);
    forall k | 0 <= k < i
      ensures IsSpace(s[k])
    {
      assert s[k] == s[..i][k];
    }
    forall k | i + |r| <= k < |s|
      ensures IsSpace(s[k])
    {
      assert s[k] == s[i + |r|..][k - (i + |r|)];
    }
  }

  /** Python's `not s.strip()`. */
  predicate IsBlank(s: string) {
    Strip(s) == ""
  }

  lemma BlankIffAllSpace(s: string)
    ensures IsBlank(s) <==> AllSpace(s)
  {
    var r := Strip(s);
    var i := StripStart(s);
    StripSpan(s);
    if r == [] {
      forall k | 0 <= k < |s| ensures IsSpace(s[k]) {
        assert s[k] == s[..i][k];
      }
    } else {
      assert s[i] == r[0];
    }
  }

  /** A string that starts with a non-space character is not blank, whatever follows. */
  lemma NotBlankPrefix(a: string, b: string)
    requires !IsBlank(a)
    ensures !IsBlank(a + b)
  {
    BlankIffAllSpace(a);
    BlankIffAllSpace(a + b);
    if AllSpace(a + b) {
      forall k | 0 <= k < |a| ensures IsSpace(a[k]) { assert a[k] == (a + b)[k]; }
    }
  }

  lemma {:induction false} TrimStartSpaces(a: string, s: string)
    requires AllSpace(a)
    ensures TrimStart(a + s) == TrimStart(s)
    decreases |a|
  {
    if a != [] {
      var rest := a[1..];
      assert AllSpace(rest) by { forall k | 0 <= k < |rest| ensures IsSpace(rest[k]) { assert rest[k] == a[k + 1]; } }
      var t := a + s;
      assert t != [] && t[0] == a[0] && IsSpace(t[0]);
      assert t[1..] == rest + s;
      assert TrimStart(t) == TrimStart(t[1..]);
      TrimStartSpaces(rest, s);
    } else {
      assert a + s == s;
    }
  }

  lemma {:induction false} TrimEndSpaces(s: string, b: string)
    requires AllSpace(b)
    ensures TrimEnd(s + b) == TrimEnd(s)
    decreases |b|
  {
    if b != [] {
      var init := b[..|b| - 1];
      assert AllSpace(init) by { forall k | 0 <= k < |init| ensures IsSpace(init[k]) { assert init[k] == b[k]; } }
      var t := s + b;
      assert t != [] && t[|t| - 1] == b[|b| - 1] && IsSpace(t[|t| - 1]);
      assert t[..|t| - 1] == s + init;
      assert TrimEnd(t) == TrimEnd(t[..|t| - 1]);
      TrimEndSpaces(s, init);
    } else {
      assert s + b == s;
    }
  }

  /** Stripping removes exactly the whitespace around text that neither starts nor ends with whitespace. */
  lemma StripAround(a: string, s: string, b: string)
    requires AllSpace(a) && AllSpace(b)
    requires s == [] || (!IsSpace(s[0]) && !IsSpace(s[|s| - 1]))
    ensures Strip(a + s + b) == s
  {
    assert a + s + b == a + (s + b);
    TrimStartSpaces(a, s + b);
    if s == [] {
      assert s + b == b + s;
      TrimStartSpaces(b, s);
      assert TrimStart(s) == s;
    } else {
      assert (s + b)[0] == s[0];
      assert TrimStart(s + b) == s + b;
      TrimEndSpaces(s, b);
      assert TrimEnd(s) == s;
    }
  }

  /** `s.startswith(p)` */
  predicate StartsWith(s: string, p: string) {
    |p| <= |s| && s[..|p|] == p
  }

  /** `sub in s` */
  predicate Contains(s: string, sub: string)
    decreases |s|
  {
    StartsWith(s, sub) || (s != [] && Contains(s[1..], sub))
  }

  /** `s.split(sep)` for a one-character separator. */
  function Split(s: string, sep: char): (parts: seq<string>)
    ensures |parts| >= 1
    ensures forall k :: 0 <= k < |parts| ==> sep !in parts[k]
    decreases |s|
  {
    if s == [] then [""]
    else
      var rest := Split(s[1..], sep);
      if s[0] == sep then [""] + rest
      else [[s[0]] + rest[0]] + rest[1..]
  }

  /** Text without the separator splits into itself alone. */
  lemma {:induction false} SplitWithoutSeparator(s: string, sep: char)
    requires sep !in s
    ensures Split(s, sep) == [s]
    decreases |s|
  {
    if s != [] {
      assert sep !in s[1..] by { assert forall k :: 0 <= k < |s| - 1 ==> s[1..][k] == s[k + 1]; }
      SplitWithoutSeparator(s[1..], sep);
      assert [s[0]] + s[1..] == s;
    }
  }

  /** Splitting at a first separator: the text before it is the first part. */
  lemma {:induction false} SplitAtSeparator(a: string, sep: char, b: string)
    requires sep !in a
    ensures Split(a + [sep] + b, sep) == [a] + Split(b, sep)
    decreases |a|
  {
    if a == [] {
      assert a + [sep] + b == [sep] + b;
      assert ([sep] + b)[1..] == b;
    } else {
      var s := a + [sep] + b;
      assert s[0] == a[0] && s[1..] == a[1..] + [sep] + b;
      assert sep !in a[1..] by { assert forall k :: 0 <= k < |a| - 1 ==> a[1..][k] == a[k + 1]; }
      SplitAtSeparator(a[1..], sep, b);
      assert [a[0]] + a[1..] == a;
    }
  }

  /** Splitting at any separator splits the two sides independently. */
  lemma {:induction false} SplitConcat(x: string, sep: char, z: string)
    ensures Split(x + [sep] + z, sep) == Split(x, sep) + Split(z, sep)
    decreases |x|
  {
    if x == [] {
      assert x + [sep] + z == [sep] + z;
      assert ([sep] + z)[1..] == z;
    } else {
      var s := x + [sep] + z;
      assert s[0] == x[0] && s[1..] == x[1..] + [sep] + z;
      SplitConcat(x[1..], sep, z);
      var left := Split(x[1..], sep);
      var right := Split(z, sep);
      if x[0] == sep {
        ConsAppend("", left, right);
      } else {
        HeadTailAppend(left, right);
        ConsAppend([x[0]] + left[0], left[1..], right);
      }
    }
  }

  // The generic sequence lemmas below have empty bodies: the verifier proves
  // each on its own. They are stated apart so that a caller whose context is
  // full of facts about strings gets the instance it needs without a costly
  // search for it.

  /** Appending after a head in front. */
  lemma ConsAppend<T>(a: T, b: seq<T>, c: seq<T>)
    ensures [a] + b + c == [a] + (b + c)
  {
  }

  /** The head and the tail of a concatenation with a non-empty left part. */
  lemma HeadTailAppend<T>(l: seq<T>, r: seq<T>)
    requires l != []
    ensures (l + r)[0] == l[0] && (l + r)[1..] == l[1..] + r
  {
  }

  /** A non-empty sequence is its head in front of its tail. */
  lemma HeadTail<T>(s: seq<T>)
    requires s != []
    ensures s == [s[0]] + s[1..]
  {
  }

  /** The head and the tail of a sequence with a head in front. */
  lemma ConsParts<T>(h: T, t: seq<T>)
    ensures ([h] + t)[0] == h && ([h] + t)[1..] == t
  {
  }

  /** A longer prefix is the shorter one and the next element. */
  lemma TakeSnoc<T>(s: seq<T>, i: nat)
    requires i < |s|
    ensures s[..i + 1] == s[..i] + [s[i]]
  {
  }

  /** The front and the last element of a sequence with an element at its end. */
  lemma SnocParts<T>(s: seq<T>, x: T)
    ensures (s + [x])[..|s|] == s && (s + [x])[|s|] == x && |s + [x]| == |s| + 1
  {
  }

  /** Indexing past a prefix. */
  lemma IndexPastPrefix<T>(pre: seq<T>, s: seq<T>, j: nat)
    requires j < |s|
    ensures (pre + s)[|pre| + j] == s[j]
  {
  }

  /** Indexing and slicing past a head in front. */
  lemma ConsIndex<T>(h: T, t: seq<T>, i: nat)
    requires i < |t|
    ensures ([h] + t)[i + 1] == t[i] && ([h] + t)[i + 2..] == t[i + 1..]
  {
  }

  /** The first part of a split is the text up to the first separator. */
  lemma {:induction false} SplitFirstPart(s: string, sep: char)
    ensures StartsWith(s, Split(s, sep)[0])
    ensures |Split(s, sep)[0]| == |s| || s[|Split(s, sep)[0]|] == sep
    decreases |s|
  {
    if s != [] && s[0] != sep {
      SplitFirstPart(s[1..], sep);
      var first := Split(s[1..], sep)[0];
      assert Split(s, sep)[0] == [s[0]] + first;
      assert s[..|first| + 1] == [s[0]] + s[1..][..|first|];
    }
  }

  /** `sep.join(parts)` */
  function Join(parts: seq<string>, sep: char): string
    decreases |parts|
  {
    if parts == [] then ""
    else if |parts| == 1 then parts[0]
    else parts[0] + [sep] + Join(parts[1..], sep)
  }

  /** Joining parts that hold no separator and splitting again gives back the parts. */
  lemma {:induction false} SplitJoin(parts: seq<string>, sep: char)
    requires parts != [] && forall k :: 0 <= k < |parts| ==> sep !in parts[k]
    ensures Split(Join(parts, sep), sep) == parts
    decreases |parts|
  {
    if |parts| == 1 {
      SplitWithoutSeparator(parts[0], sep);
    } else {
      var head := parts[0];
      var tail := parts[1..];
      HeadTail(parts);
      assert sep !in head;
      SplitJoin(tail, sep);
      SplitAtSeparator(head, sep, Join(tail, sep));
    }
  }

  /** Five parts joined: each separated from the next by one separator. */
  lemma JoinFive(a: string, b: string, c: string, d: string, e: string, sep: char)
    ensures Join([a, b, c, d, e], sep) == a + [sep] + b + [sep] + c + [sep] + d + [sep] + e
  {
    assert [d, e][1..] == [e];
    assert Join([d, e], sep) == d + [sep] + e;
    assert [c, d, e][1..] == [d, e];
    assert Join([c, d, e], sep) == c + [sep] + (d + [sep] + e);
    assert [b, c, d, e][1..] == [c, d, e];
    assert Join([b, c, d, e], sep) == b + [sep] + (c + [sep] + (d + [sep] + e));
    assert [a, b, c, d, e][1..] == [b, c, d, e];
    assert Join([a, b, c, d, e], sep) == a + [sep] + (b + [sep] + (c + [sep] + (d + [sep] + e)));
  }

  /** `"".join(parts)`: the parts concatenated in order. */
  function Concat(parts: seq<string>): string
    decreases |parts|
  {
    if parts == [] then "" else Concat(parts[..|parts| - 1]) + parts[|parts| - 1]
  }

  /** Appending a part appends its text. */
  lemma ConcatSnoc(xs: seq<string>, x: string)
    ensures Concat(xs + [x]) == Concat(xs) + x
  {
    assert (xs + [x])[..|xs|] == xs;
  }

  /** Two parts concatenate to their sum. */
  lemma ConcatPair(x: string, y: string)
    ensures Concat([x, y]) == x + y
  {
    assert [x, y][..1] == [x] && [x][..0] == [];
    assert "" + x == x;
    assert Concat([x]) == x;
  }

  /** Prepending a part prepends its text. */
  lemma {:induction false} ConcatFront(x: string, xs: seq<string>)
    ensures Concat([x] + xs) == x + Concat(xs)
    decreases |xs|
  {
    if xs == [] {
      assert [x] + xs == [x];
      assert [x][..0] == [];
      assert x + "" == x;
    } else {
      var init := xs[..|xs| - 1];
      var last := xs[|xs| - 1];
      ConsThenLast(x, xs);
      ConcatFront(x, init);
      assert Concat([x] + xs) == x + Concat(init) + last;
      assert Concat(xs) == Concat(init) + last;
      assert x + Concat(init) + last == x + (Concat(init) + last);
    }
  }

  /** A head in front of a non-empty sequence leaves its last element last. */
  lemma ConsThenLast<T>(x: T, xs: seq<T>)
    requires xs != []
    ensures ([x] + xs)[..|xs|] == [x] + xs[..|xs| - 1] && ([x] + xs)[|xs|] == xs[|xs| - 1]
  {
  }

  /**
   * `s.splitlines()` with '\n' as the only line boundary: no lines for the
   * empty text, and no empty last line for a trailing newline.
   */
  function SplitLines(s: string): (lines: seq<string>)
    ensures forall k :: 0 <= k < |lines| ==> '\n' !in lines[k]
  {
    if s == "" then []
    else
      var parts := Split(s, '\n');
      if s[|s| - 1] == '\n' then parts[..|parts| - 1] else parts
  }

  function DigitChar(d: nat): (c: char)
    requires d < 10
    ensures '0' <= c <= '9'
  {
    "0123456789"[d]
  }

  /** `str(n)` for a non-negative integer. */
  function NatToString(n: nat): (r: string)
    ensures |r| >= 1
    ensures forall i :: 0 <= i < |r| ==> '0' <= r[i] <= '9'
    decreases n
  {
    if n < 10 then [DigitChar(n)] else NatToString(n / 10) + [DigitChar(n % 10)]
  }

  /** `str(i)` for any integer. */
  function IntToString(i: int): string {
    if i < 0 then "-" + NatToString(-i) else NatToString(i)
  }
}
