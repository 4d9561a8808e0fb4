/** The handful of Python string operations the pipeline's file-name schema is built on:
    `t in s`, `s.endswith(t)`, `s.split(sep, maxsplit)` and `os.path.splitext(s)[0]`. */
module Strings {
  import opened Common

  /** `t` occurs in `s` at position `i`. */
  ghost predicate OccursAt(s: string, t: string, i: int)
  {
    0 <= i && i + |t| <= |s| && s[i..i + |t|] == t
  }

  predicate StartsWith(s: string, t: string)
  {
    |t| <= |s| && s[..|t|] == t
  }

  /** Python's `t in s` on strings. */
  predicate Contains(s: string, t: string)
    decreases |s|
  {
    StartsWith(s, t) || (|s| > 0 && Contains(s[1..], t))
  }

  /** Python's `s.endswith(t)`. */
  predicate EndsWith(s: string, t: string)
  {
    |t| <= |s| && s[|s| - |t|..] == t
  }

  /** `Contains` is exactly substring occurrence. */
  lemma {:induction false} ContainsIff(s: string, t: string)
    ensures Contains(s, t) <==> exists i :: OccursAt(s, t, i)
    decreases |s|
  {
    if StartsWith(s, t) {
      assert OccursAt(s, t, 0);
    } else if |s| > 0 {
      ContainsIff(s[1..], t);
      if Contains(s[1..], t) {
        var i :| OccursAt(s[1..], t, i);
        assert s[1..][i..i + |t|] == s[i + 1..i + 1 + |t|];
        assert OccursAt(s, t, i + 1);
      }
      if i :| OccursAt(s, t, i) {
        assert i != 0;
        assert s[1..][i - 1..i - 1 + |t|] == s[i..i + |t|];
        assert OccursAt(s[1..], t, i - 1);
      }
    }
  }

  /** A text never contains a longer one. */
  lemma {:induction false} NotContainsShorter(s: string, t: string)
    requires |s| < |t|
    ensures !Contains(s, t)
    decreases |s|
  {
    if |s| > 0 {
      NotContainsShorter(s[1..], t);
    }
  }

  /** An occurrence of `t` inside `s` is an occurrence inside every extension of `s`. */
  lemma ContainsInContext(a: string, s: string, b: string, t: string)
    requires Contains(s, t)
    ensures Contains(a + s + b, t)
  {
    ContainsIff(s, t);
    var i :| OccursAt(s, t, i);
    assert (a + s + b)[|a| + i..|a| + i + |t|] == s[i..i + |t|];
    assert OccursAt(a + s + b, t, |a| + i);
    ContainsIff(a + s + b, t);
  }

  /** The number of occurrences of the character `c` in `s`. */
  function Count(s: string, c: char): (n: nat)
    ensures n <= |s|
  {
    if s == [] then 0 else (if s[0] == c then 1 else 0) + Count(s[1..], c)
  }

  lemma {:induction false} CountZero(s: string, c: char)
    ensures Count(s, c) == 0 <==> c !in s
  {
    if s != [] {
      CountZero(s[1..], c);
      assert s == [s[0]] + s[1..];
    }
  }

  lemma {:induction false} CountAppend(a: string, b: string, c: char)
    ensures Count(a + b, c) == Count(a, c) + Count(b, c)
  {
    if a != [] {
      assert (a + b)[1..] == a[1..] + b;
      CountAppend(a[1..], b, c);
    } else {
      assert a + b == b;
    }
  }

  /** Position of the first `c` in `s`, or -1 (Python's `s.find(c)`). */
  function IndexOf(s: string, c: char): (k: int)
    ensures -1 <= k < |s|
    ensures k >= 0 ==> s[k] == c && c !in s[..k]
    ensures k < 0 ==> c !in s
  {
    if s == [] then -1
    else if s[0] == c then 0
    else
      var k := IndexOf(s[1..], c);
      if k < 0 then -1 else k + 1
  }

  /** Position of the last `c` in `s`, or -1 (Python's `s.rfind(c)`). */
  function LastIndexOf(s: string, c: char): (k: int)
    ensures -1 <= k < |s|
    ensures k >= 0 ==> s[k] == c && c !in s[k + 1..]
    ensures k < 0 ==> c !in s
  {
    if s == [] then -1
    else if s[|s| - 1] == c then |s| - 1
    else LastIndexOf(s[..|s| - 1], c)
  }

  /** The pieces of `parts` glued back together with `c` between neighbours. */
  function Join(parts: seq<string>, c: char): string
  {
    if |parts| == 0 then ""
    else if |parts| == 1 then parts[0]
    else parts[0] + [c] + Join(parts[1..], c)
  }

  lemma JoinThree(parts: seq<string>, c: char)
    requires |parts| == 3
    ensures Join(parts, c) == parts[0] + [c] + parts[1] + [c] + parts[2]
  {
    assert parts[1..][1..] == [parts[2]];
    assert Join(parts[1..][1..], c) == parts[2];
    assert Join(parts[1..], c) == parts[1] + [c] + parts[2];
  }

  lemma JoinFour(parts: seq<string>, c: char)
    requires |parts| == 4
    ensures Join(parts, c) == parts[0] + [c] + parts[1] + [c] + parts[2] + [c] + parts[3]
  {
    JoinThree(parts[1..], c);
  }

  /** Python's `s.split(c, maxsplit)` for a one-character separator: split at the first
      `maxsplit` occurrences of `c`, the remainder (separators included) forming the last piece. */
  function Split(s: string, c: char, maxsplit: nat): (parts: seq<string>)
    ensures 1 <= |parts| <= maxsplit + 1
    ensures forall i :: 0 <= i < |parts| - 1 ==> c !in parts[i]
    decreases maxsplit
  {
    var k := IndexOf(s, c);
    if maxsplit == 0 || k < 0 then [s]
    else
      var head := s[..k];
      var rest := Split(s[k + 1..], c, maxsplit - 1);
      var parts := [head] + rest;
      assert parts[0] == head && c !in head;
      assert forall i :: 1 <= i < |parts| ==> parts[i] == rest[i - 1];
      parts
  }

  /** The characters after the first `c` hold one `c` fewer than the whole. */
  lemma CountAfterFirst(s: string, c: char)
    requires IndexOf(s, c) >= 0
    ensures Count(s, c) == Count(s[IndexOf(s, c) + 1..], c) + 1
  {
    var k := IndexOf(s, c);
    var t := s[k + 1..];
    assert s == s[..k] + ([c] + t);
    CountAppend(s[..k], [c] + t, c);
    CountAppend([c], t, c);
    assert Count([c], c) == 1;
    CountZero(s[..k], c);
  }

  /** One piece more than the separators it split at: all of them, up to `maxsplit`. */
  lemma {:induction false} SplitCount(s: string, c: char, maxsplit: nat)
    ensures |Split(s, c, maxsplit)| == Min(Count(s, c), maxsplit) + 1
    decreases maxsplit
  {
    if maxsplit > 0 && IndexOf(s, c) >= 0 {
      SplitStep(s, c, maxsplit);
      SplitCount(s[IndexOf(s, c) + 1..], c, maxsplit - 1);
      CountAfterFirst(s, c);
    } else {
      assert Split(s, c, maxsplit) == [s];
      CountZero(s, c);
    }
  }

  lemma JoinCons(x: string, rest: seq<string>, c: char)
    requires rest != []
    ensures Join([x] + rest, c) == x + [c] + Join(rest, c)
  {
    assert ([x] + rest)[1..] == rest;
  }

  /** Splitting at a separator peels off the text before it. */
  lemma SplitStep(s: string, c: char, maxsplit: nat)
    requires maxsplit > 0 && IndexOf(s, c) >= 0
    ensures Split(s, c, maxsplit) == [s[..IndexOf(s, c)]] + Split(s[IndexOf(s, c) + 1..], c, maxsplit - 1)
  {
  }

  /** Joining the pieces with the separator gives the string back. */
  lemma {:induction false} SplitJoin(s: string, c: char, maxsplit: nat)
    ensures Join(Split(s, c, maxsplit), c) == s
    decreases maxsplit
  {
    if maxsplit > 0 && IndexOf(s, c) >= 0 {
      SplitStep(s, c, maxsplit);
      SplitJoin(s[IndexOf(s, c) + 1..], c, maxsplit - 1);
      JoinCons(s[..IndexOf(s, c)], Split(s[IndexOf(s, c) + 1..], c, maxsplit - 1), c);
      assert s == s[..IndexOf(s, c)] + [c] + s[IndexOf(s, c) + 1..];
    }
  }

  /** Splitting a name whose first field is separator-free peels off exactly that field. */
  lemma SplitField(a: string, c: char, b: string, maxsplit: nat)
    requires c !in a && maxsplit > 0
    ensures Split(a + [c] + b, c, maxsplit) == [a] + Split(b, c, maxsplit - 1)
  {
    var s := a + [c] + b;
    assert s[..|a|] == a && s[|a|] == c;
    assert IndexOf(s, c) == |a|;
    assert s[|a| + 1..] == b;
  }

  /** Every character of `s` is a dot. */
  predicate AllDots(s: string)
  {
    forall k :: 0 <= k < |s| ==> s[k] == '.'
  }

  /** `os.path.splitext(name)[0]` for a name without directory separators: cut at the last dot,
      unless everything before that dot is dots (a leading-dot name has no extension). */
  function Stem(name: string): string
  {
    var d := LastIndexOf(name, '.');
    if d >= 0 && !AllDots(name[..d]) then name[..d] else name
  }

  /** An extension such as ".tif": a dot followed by dot-free text. */
  predicate IsExtension(ext: string)
  {
    |ext| >= 1 && ext[0] == '.' && '.' !in ext[1..]
  }

  /** Stripping the extension from `base + ext` gives back `base`. */
  lemma StemOfExtension(base: string, ext: string)
    requires IsExtension(ext) && !AllDots(base)
    ensures Stem(base + ext) == base
  {
    var s := base + ext;
    var d := LastIndexOf(s, '.');
    assert s[|base|] == '.';
    assert s[|base| + 1..] == ext[1..];
    assert d == |base|;
    assert s[..d] == base;
  }
}
