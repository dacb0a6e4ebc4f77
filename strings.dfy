/** The Python string built-ins the tutor and the application rely on:
    `str.isspace`/`str.strip`, `str.lower`, the substring test `in`,
    `str.join` and the concatenation an f-string performs. */
module Strings {

  /** Python's `str.isspace()` for one character. */
  predicate IsSpace(c: char)
  {
    c == ' ' || ('\U{9}' <= c <= '\U{D}') || ('\U{1C}' <= c <= '\U{1F}')
    || c == '\U{85}' || c == '\U{A0}' || c == '\U{1680}'
    || ('\U{2000}' <= c <= '\U{200A}') || c == '\U{2028}' || c == '\U{2029}'
    || c == '\U{202F}' || c == '\U{205F}' || c == '\U{3000}'
  }

  predicate IsBlank(s: string)
  {
    forall i :: 0 <= i < |s| ==> IsSpace(s[i])
  }

  /** Drops the leading whitespace. */
  function TrimStart(s: string): (r: string)
    ensures |r| <= |s| && r == s[|s| - |r|..]
    ensures IsBlank(s[..|s| - |r|])
    ensures r != [] ==> !IsSpace(r[0])
  {
    if s != [] && IsSpace(s[0]) then
      var r := TrimStart(s[1..]);
      assert s[..|s| - |r|] == [s[0]] + s[1..][..|s| - 1 - |r|];
      r
    else s
  }

  /** Drops the trailing whitespace. */
  function TrimEnd(s: string): (r: string)
    ensures |r| <= |s| && r == s[..|r|]
    ensures IsBlank(s[|r|..])
    ensures r != [] ==> !IsSpace(r[|r| - 1])
  {
    if s != [] && IsSpace(s[|s| - 1]) then
      var r := TrimEnd(s[..|s| - 1]);
      assert s[|r|..] == s[..|s| - 1][|r|..] + [s[|s| - 1]];
      r
    else s
  }

  /** Python's `str.strip()` with no argument; StripIsSlice states what it
      returns. */
  function Strip(s: string): string
  {
    TrimEnd(TrimStart(s))
  }

  /** A stripped string is the input with its leading and trailing
      whitespace removed and nothing else changed, and it neither starts nor
      ends with whitespace. */
  lemma StripIsSlice(s: string)
    ensures exists i :: StrippedAt(s, Strip(s), i)
    ensures Strip(s) != [] ==> !IsSpace(Strip(s)[0]) && !IsSpace(Strip(s)[|Strip(s)| - 1])
  {
    StripSlice(s, TrimStart(s), Strip(s));
  }

  /** `r` is `s` from `i` on, less a blank prefix and a blank suffix. */
  predicate StrippedAt(s: string, r: string, i: int)
  {
    0 <= i <= |s| - |r| && r == s[i..i + |r|] && IsBlank(s[..i]) && IsBlank(s[i + |r|..])
  }

  lemma {:induction false} StripSlice(s: string, t: string, r: string)
    requires t == TrimStart(s) && r == TrimEnd(t)
    ensures StrippedAt(s, r, |s| - |t|)
  {
    var i := |s| - |t|;
    assert t == s[i..];
    assert r == t[..|r|] == s[i..i + |r|];
    assert t[|r|..] == s[i + |r|..];
  }

  /** A stripped string is empty exactly when the input was all whitespace. */
  lemma {:induction false} StripEmptyIffBlank(s: string)
    ensures Strip(s) == [] <==> IsBlank(s)
  {
    StripIsSlice(s);
    var r := Strip(s);
    var i :| StrippedAt(s, r, i);
    if r == [] {
      forall k | 0 <= k < |s| ensures IsSpace(s[k]) {
        if k < i { assert s[..i][k] == s[k]; } else { assert s[i..][k - i] == s[k]; }
      }
    } else {
      assert r[0] == s[i];
    }
  }

  /** Python's `str.lower()` on one character, for the ASCII letters. */
  function LowerChar(c: char): char
  {
    if 'A' <= c <= 'Z' then (c as int + 32) as char else c
  }

  /** Python's `str.lower()`: a character-by-character mapping. */
  function Lower(s: string): (r: string)
    ensures |r| == |s|
    ensures forall i :: 0 <= i < |s| ==> r[i] == LowerChar(s[i])
  {
    seq(|s|, i requires 0 <= i < |s| => LowerChar(s[i]))
  }

  /** Two characters that are the same letter up to ASCII case, or equal. */
  predicate CaseVariants(a: char, b: char)
  {
    a == b || ('A' <= a <= 'Z' && b as int == a as int + 32)
    || ('A' <= b <= 'Z' && a as int == b as int + 32)
  }

  lemma {:induction false} LowerCharIgnoresCase(a: char, b: char)
    ensures LowerChar(a) == LowerChar(b) <==> CaseVariants(a, b)
  {
  }

  /** Lower-casing forgets exactly the ASCII case: two strings lower-case to
      the same string precisely when they have the same length and differ
      at most in the case of their letters. */
  lemma {:induction false} LowerIgnoresCase(s: string, t: string)
    ensures Lower(s) == Lower(t) <==> |s| == |t| && forall i :: 0 <= i < |s| ==> CaseVariants(s[i], t[i])
  {
    if Lower(s) == Lower(t) {
      forall i | 0 <= i < |s| ensures CaseVariants(s[i], t[i]) {
        assert Lower(s)[i] == Lower(t)[i];
        LowerCharIgnoresCase(s[i], t[i]);
      }
    }
    if |s| == |t| && forall i :: 0 <= i < |s| ==> CaseVariants(s[i], t[i]) {
      forall i | 0 <= i < |s| ensures Lower(s)[i] == Lower(t)[i] {
        LowerCharIgnoresCase(s[i], t[i]);
      }
    }
  }

  /** A lower-cased string has no upper-case ASCII letter left, so
      lower-casing it again changes nothing. */
  lemma {:induction false} LowerIsLowerCase(s: string)
    ensures forall i :: 0 <= i < |Lower(s)| ==> !('A' <= Lower(s)[i] <= 'Z')
    ensures Lower(Lower(s)) == Lower(s)
  {
  }

  /** Python's `sub in s`: `sub` occurs in `s` as a contiguous run. */
  predicate Contains(s: string, sub: string)
  {
    sub <= s || (s != [] && Contains(s[1..], sub))
  }

  predicate OccursAt(s: string, sub: string, at: int)
  {
    0 <= at && at + |sub| <= |s| && s[at..at + |sub|] == sub
  }

  /** The recursive `Contains` agrees with the positional definition of
      an occurrence. */
  lemma {:induction false} ContainsIffOccurs(s: string, sub: string)
    ensures Contains(s, sub) <==> exists at :: OccursAt(s, sub, at)
  {
    if Contains(s, sub) {
      var at := ContainsWitness(s, sub);
    }
    if exists at :: OccursAt(s, sub, at) {
      var at :| OccursAt(s, sub, at);
      OccursContains(s, sub, at);
    }
  }

  lemma {:induction false} ContainsWitness(s: string, sub: string) returns (at: nat)
    requires Contains(s, sub)
    ensures OccursAt(s, sub, at)
  {
    if sub <= s {
      at := 0;
    } else {
      var at' := ContainsWitness(s[1..], sub);
      assert s[1..][at'..at' + |sub|] == s[at' + 1..at' + 1 + |sub|];
      at := at' + 1;
    }
  }

  lemma {:induction false} OccursContains(s: string, sub: string, at: int)
    requires OccursAt(s, sub, at)
    ensures Contains(s, sub)
    decreases at
  {
    if at > 0 {
      assert s[1..][at - 1..at - 1 + |sub|] == s[at..at + |sub|];
      OccursContains(s[1..], sub, at - 1);
    } else {
      assert s[..|sub|] == sub;
    }
  }

  /** A one-character query is found only where that character occurs. */
  lemma {:induction false} ContainsCharOnlyIfPresent(s: string, c: char)
    requires forall i :: 0 <= i < |s| ==> s[i] != c
    ensures !Contains(s, [c])
    decreases |s|
  {
    if s != [] {
      assert !([c] <= s) by { assert s[0] != c; }
      assert forall i :: 0 <= i < |s[1..]| ==> s[1..][i] == s[i + 1];
      ContainsCharOnlyIfPresent(s[1..], c);
    }
  }

  /** Every string contains the empty string (so an empty query matches). */
  lemma {:induction false} ContainsEmpty(s: string)
    ensures Contains(s, "")
  {
  }

  /** The concatenation of an f-string's literal and interpolated parts. */
  function Concat(parts: seq<string>): (r: string)
  {
    if parts == [] then "" else parts[0] + Concat(parts[1..])
  }

  lemma {:induction false} ConcatAppend(a: seq<string>, b: seq<string>)
    ensures Concat(a + b) == Concat(a) + Concat(b)
  {
    if a == [] {
      assert a + b == b;
    } else {
      assert (a + b)[1..] == a[1..] + b;
      ConcatAppend(a[1..], b);
    }
  }

  /** Where part `k` starts in `Concat(parts)`. */
  function Offset(parts: seq<string>, k: nat): nat
    requires k <= |parts|
  {
    |Concat(parts[..k])|
  }

  /** The concatenation is what comes before part `k`, part `k`, and what
      comes after it. */
  lemma {:induction false} ConcatSplitAt(parts: seq<string>, k: nat)
    requires k < |parts|
    ensures Concat(parts) == Concat(parts[..k]) + parts[k] + Concat(parts[k + 1..])
  {
    assert parts == parts[..k] + parts[k..];
    ConcatAppend(parts[..k], parts[k..]);
    assert parts[k..][1..] == parts[k + 1..];
  }

  /** Each part appears verbatim in the concatenation, at its offset. */
  lemma {:induction false} ConcatEmbeds(parts: seq<string>, k: nat)
    requires k < |parts|
    ensures OccursAt(Concat(parts), parts[k], Offset(parts, k))
  {
    ConcatSplitAt(parts, k);
    var x := Concat(parts[..k]);
    var r := Concat(parts);
    assert r[|x|..|x| + |parts[k]|] == parts[k];
  }

  /** The last part ends the concatenation. */
  lemma {:induction false} ConcatEndsWithLast(parts: seq<string>)
    requires parts != []
    ensures OccursAt(Concat(parts), parts[|parts| - 1], |Concat(parts)| - |parts[|parts| - 1]|)
  {
    var k := |parts| - 1;
    ConcatSplitAt(parts, k);
    assert parts[k + 1..] == [];
    ConcatEmbeds(parts, k);
  }

  /** Two part lists that agree everywhere but at `k` concatenate to the
      same string exactly when they agree at `k` too. */
  lemma {:induction false} ConcatDiffersAt(a: seq<string>, b: seq<string>, k: nat)
    requires |a| == |b| && k < |a|
    requires forall j :: 0 <= j < |a| && j != k ==> a[j] == b[j]
    ensures Concat(a) == Concat(b) <==> a[k] == b[k]
  {
    assert a[..k] == b[..k];
    assert a[k + 1..] == b[k + 1..];
    ConcatSplitAt(a, k);
    ConcatSplitAt(b, k);
    var x := Concat(a[..k]);
    if Concat(a) == Concat(b) {
      assert a[k] == Concat(a)[|x|..|x| + |a[k]|];
      assert b[k] == Concat(b)[|x|..|x| + |b[k]|];
    }
  }

  lemma {:induction false} ConcatCons(parts: seq<string>)
    requires parts != []
    ensures Concat(parts) == parts[0] + Concat(parts[1..])
  {
  }

  /** Three parts concatenate to the three strings in order. */
  lemma {:induction false} ConcatThree(x: string, y: string, z: string)
    ensures Concat([x, y, z]) == x + y + z
  {
    ConcatCons([x, y, z]);
    assert [x, y, z][1..] == [y, z];
    ConcatCons([y, z]);
    assert [y, z][1..] == [z];
    ConcatCons([z]);
    assert [z][1..] == [];
  }

  /** Part `k + 1` starts where part `k` ends. */
  lemma {:induction false} OffsetStep(parts: seq<string>, k: nat)
    requires k < |parts|
    ensures Offset(parts, k + 1) == Offset(parts, k) + |parts[k]|
  {
    assert parts[..k + 1] == parts[..k] + [parts[k]];
    ConcatAppend(parts[..k], [parts[k]]);
    ConcatCons([parts[k]]);
    assert [parts[k]][1..] == [];
  }

  /** Two occurrences that touch form one occurrence of the joined text. */
  lemma {:induction false} OccursAdjacent(r: string, x: string, y: string, o: int)
    requires OccursAt(r, x, o) && OccursAt(r, y, o + |x|)
    ensures OccursAt(r, x + y, o)
  {
    assert r[o..o + |x| + |y|] == r[o..o + |x|] + r[o + |x|..o + |x| + |y|];
  }

  /** Three consecutive parts appear, joined, at the offset of the first. */
  lemma {:induction false} ConcatRun(parts: seq<string>, k: nat)
    requires k + 3 <= |parts|
    ensures OccursAt(Concat(parts), parts[k] + parts[k + 1] + parts[k + 2], Offset(parts, k))
  {
    var r := Concat(parts);
    ConcatEmbeds(parts, k);
    ConcatEmbeds(parts, k + 1);
    ConcatEmbeds(parts, k + 2);
    OffsetStep(parts, k);
    OffsetStep(parts, k + 1);
    OccursAdjacent(r, parts[k], parts[k + 1], Offset(parts, k));
    OccursAdjacent(r, parts[k] + parts[k + 1], parts[k + 2], Offset(parts, k));
  }

  /** An occurrence inside an occurrence is an occurrence. */
  lemma {:induction false} OccursWithin(r: string, j: string, o: int, sub: string, jo: int)
    requires OccursAt(r, j, o) && OccursAt(j, sub, jo)
    ensures OccursAt(r, sub, o + jo)
  {
    forall i | 0 <= i < |sub| ensures r[o + jo + i] == sub[i] {
      assert sub[i] == j[jo + i];
      assert j[jo + i] == r[o + jo + i];
    }
    assert r[o + jo..o + jo + |sub|] == sub;
  }

  /** Python's `sep.join(items)`: the items in order with `sep` between
      consecutive ones; no items give the empty string. */
  function Join(items: seq<string>, sep: string): (r: string)
  {
    if items == [] then ""
    else if |items| == 1 then items[0]
    else items[0] + sep + Join(items[1..], sep)
  }

  /** Where item `k` starts in `Join(items, sep)`: the lengths of the items
      before it, each followed by a separator. */
  function JoinOffset(items: seq<string>, sep: string, k: nat): nat
    requires k <= |items|
  {
    if k == 0 then 0 else |items[0]| + |sep| + JoinOffset(items[1..], sep, k - 1)
  }

  /** `Join` puts each item verbatim at its offset, and a separator right
      after every item but the last. */
  lemma {:induction false} JoinEmbeds(items: seq<string>, sep: string, k: nat)
    requires k < |items|
    ensures OccursAt(Join(items, sep), items[k], JoinOffset(items, sep, k))
    ensures k + 1 < |items| ==>
              OccursAt(Join(items, sep), sep, JoinOffset(items, sep, k) + |items[k]|)
  {
    var j := Join(items, sep);
    if k == 0 {
      if |items| > 1 {
        assert j == items[0] + sep + Join(items[1..], sep);
        assert j[|items[0]|..|items[0]| + |sep|] == sep;
      }
    } else {
      var tail := items[1..];
      JoinEmbeds(tail, sep, k - 1);
      var d := |items[0]| + |sep|;
      var o := JoinOffset(tail, sep, k - 1);
      var jt := Join(tail, sep);
      assert j == items[0] + sep + jt;
      assert OccursAt(j, jt, d) by { assert j[d..] == jt; }
      OccursWithin(j, jt, d, items[k], o);
      if k + 1 < |items| {
        OccursWithin(j, jt, d, sep, o + |items[k]|);
      }
    }
  }

  /** An empty list joins to the empty string; a single item to itself. */
  lemma {:induction false} JoinShortLists(sep: string, t: string)
    ensures Join([], sep) == ""
    ensures Join([t], sep) == t
  {
  }
}
