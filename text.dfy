/**
 * The Python string operations the scraper relies on: `str.strip`, `rstrip`,
 * `lower`, `in`, `split` and `replace`, written over `seq<char>`.
 */
module Text {

  /** Python's `str.isspace` for one code point (the Unicode White_Space set Python uses). */
  predicate IsSpace(c: char) {
    c == ' ' || ('\U{9}' <= c <= '\U{D}') || ('\U{1C}' <= c <= '\U{1F}')
    || c == '\U{85}' || c == '\U{A0}' || c == '\U{1680}' || ('\U{2000}' <= c <= '\U{200A}')
    || c == '\U{2028}' || c == '\U{2029}' || c == '\U{202F}' || c == '\U{205F}' || c == '\U{3000}'
  }

  /** The `chars` argument of `str.strip`: omitted (whitespace), or the characters to remove. */
  datatype StripChars = Whitespace | Chars(chars: string)

  predicate Drops(drop: StripChars, c: char) {
    match drop
    case Whitespace => IsSpace(c)
    case Chars(chars) => c in chars
  }

  /** Removes the longest prefix of characters `drop` names (`str.lstrip(chars)`). */
  function TrimStart(s: string, drop: StripChars): string {
    if s != [] && Drops(drop, s[0]) then TrimStart(s[1..], drop) else s
  }

  /** What `TrimStart` removes is a prefix of characters to drop, and what it keeps starts with one to keep. */
  lemma {:induction false} TrimStartSpec(s: string, drop: StripChars)
    ensures var r := TrimStart(s, drop);
            && |r| <= |s| && r == s[|s| - |r|..]
            && (forall i :: 0 <= i < |s| - |r| ==> Drops(drop, s[i]))
            && (r != [] ==> !Drops(drop, r[0]))
  {
    if s != [] && Drops(drop, s[0]) {
      var t := s[1..];
      TrimStartSpec(t, drop);
      var r := TrimStart(t, drop);
      assert TrimStart(s, drop) == r;
      assert t[|t| - |r|..] == s[|s| - |r|..];
      forall i | 1 <= i < |s| - |r| ensures Drops(drop, s[i]) {
        assert s[i] == t[i - 1];
      }
    }
  }

  /** Removes the longest suffix of characters `drop` names (`str.rstrip(chars)`). */
  function TrimEnd(s: string, drop: StripChars): string {
    if s != [] && Drops(drop, s[|s| - 1]) then TrimEnd(s[..|s| - 1], drop) else s
  }

  /** What `TrimEnd` removes is a suffix of characters to drop, and what it keeps ends with one to keep. */
  lemma {:induction false} TrimEndSpec(s: string, drop: StripChars)
    ensures var r := TrimEnd(s, drop);
            && |r| <= |s| && r == s[..|r|]
            && (forall i :: |r| <= i < |s| ==> Drops(drop, s[i]))
            && (r != [] ==> !Drops(drop, r[|r| - 1]))
  {
    if s != [] && Drops(drop, s[|s| - 1]) {
      var t := s[..|s| - 1];
      TrimEndSpec(t, drop);
      var r := TrimEnd(t, drop);
      assert TrimEnd(s, drop) == r;
      assert t[..|r|] == s[..|r|];
      forall i | |r| <= i < |s| - 1 ensures Drops(drop, s[i]) {
        assert s[i] == t[i];
      }
    }
  }

  lemma {:induction false} SliceOfSuffix(s: string, k: nat, n: nat)
    requires k + n <= |s|
    ensures s[k..][..n] == s[k..k + n]
  {
  }

  /** Trimming both ends keeps a contiguous piece of `s`: the characters cut away at either end are all dropped ones, and the piece neither starts nor ends with one. */
  lemma {:induction false} TrimSpec(s: string, drop: StripChars)
    ensures var t := TrimStart(s, drop);
            var r := TrimEnd(t, drop);
            var k := |s| - |t|;
            && 0 <= k && k + |r| <= |s| && r == s[k..k + |r|]
            && (forall i :: 0 <= i < k ==> Drops(drop, s[i]))
            && (forall i :: k + |r| <= i < |s| ==> Drops(drop, s[i]))
            && (r != [] ==> !Drops(drop, r[0]) && !Drops(drop, r[|r| - 1]))
  {
    var t := TrimStart(s, drop);
    TrimStartSpec(s, drop);
    TrimEndSpec(t, drop);
    TrimCompose(s, t, TrimEnd(t, drop), drop);
  }

  /** A prefix cut by `lstrip` followed by a suffix cut by `rstrip` leaves a middle piece. */
  lemma {:induction false} TrimCompose(s: string, t: string, r: string, drop: StripChars)
    requires |t| <= |s| && t == s[|s| - |t|..]
    requires forall i :: 0 <= i < |s| - |t| ==> Drops(drop, s[i])
    requires t != [] ==> !Drops(drop, t[0])
    requires |r| <= |t| && r == t[..|r|]
    requires forall i :: |r| <= i < |t| ==> Drops(drop, t[i])
    requires r != [] ==> !Drops(drop, r[|r| - 1])
    ensures var k := |s| - |t|;
            && 0 <= k && k + |r| <= |s| && r == s[k..k + |r|]
            && (forall i :: 0 <= i < k ==> Drops(drop, s[i]))
            && (forall i :: k + |r| <= i < |s| ==> Drops(drop, s[i]))
            && (r != [] ==> !Drops(drop, r[0]) && !Drops(drop, r[|r| - 1]))
  {
    var k := |s| - |t|;
    SliceOfSuffix(s, k, |r|);
    forall i | k + |r| <= i < |s| ensures Drops(drop, s[i]) {
      assert s[i] == t[i - k];
    }
    if r != [] {
      assert r[0] == t[0];
    }
  }

  /** `str.strip()`: whitespace removed at both ends. */
  function Strip(s: string): string {
    TrimEnd(TrimStart(s, Whitespace), Whitespace)
  }

  /** `Strip` keeps a contiguous piece of its input and leaves no whitespace at either end. */
  lemma {:induction false} StripSpec(s: string)
    ensures var r := Strip(s);
            var k := |s| - |TrimStart(s, Whitespace)|;
            && 0 <= k && k + |r| <= |s| && r == s[k..k + |r|]
            && (forall i :: 0 <= i < k ==> IsSpace(s[i]))
            && (forall i :: k + |r| <= i < |s| ==> IsSpace(s[i]))
            && (r != [] ==> !IsSpace(r[0]) && !IsSpace(r[|r| - 1]))
  {
    TrimSpec(s, Whitespace);
  }

  /** `str.lower()` restricted to ASCII letters; every other character is kept. */
  function LowerChar(c: char): char {
    if 'A' <= c <= 'Z' then (c as int + 32) as char else c
  }

  function Lower(s: string): (r: string)
    ensures |r| == |s|
  {
    if s == [] then [] else [LowerChar(s[0])] + Lower(s[1..])
  }

  /** `Lower` works character by character. */
  lemma {:induction false} LowerAt(s: string)
    ensures forall i :: 0 <= i < |s| ==> Lower(s)[i] == LowerChar(s[i])
  {
    if s != [] {
      LowerAt(s[1..]);
      assert forall i :: 1 <= i < |s| ==> Lower(s)[i] == Lower(s[1..])[i - 1];
    }
  }

  predicate IsUpper(c: char) { 'A' <= c <= 'Z' }

  /** Lowercasing twice is lowercasing once, and leaves no ASCII capital behind. */
  lemma {:induction false} LowerIdempotent(s: string)
    ensures Lower(Lower(s)) == Lower(s)
    ensures forall i :: 0 <= i < |s| ==> !IsUpper(Lower(s)[i])
  {
    if s != [] {
      LowerIdempotent(s[1..]);
    }
  }

  /** `t` occurs in `s` starting at index `i`. */
  predicate OccursAt(s: string, t: string, i: int) {
    0 <= i && i + |t| <= |s| && s[i..i + |t|] == t
  }

  /** Python's substring test `t in s`. */
  predicate Contains(s: string, t: string) {
    exists i :: 0 <= i <= |s| - |t| && OccursAt(s, t, i)
  }

  /** `t in s` holds when `s` ends with `t`. */
  lemma {:induction false} ContainsSuffix(p: string, t: string)
    ensures Contains(p + t, t)
  {
    assert (p + t)[|p|..|p| + |t|] == t;
    assert OccursAt(p + t, t, |p|);
  }

  /** Index of the first `c` in `s`. */
  function IndexOf(s: string, c: char): (i: nat)
    requires c in s
    ensures i < |s| && s[i] == c && c !in s[..i]
  {
    if s[0] == c then 0 else 1 + IndexOf(s[1..], c)
  }

  lemma {:induction false} IndexOfPrefix(a: string, b: string, c: char)
    requires c in a
    ensures c in a + b && IndexOf(a + b, c) == IndexOf(a, c)
  {
    assert (a + b)[0] == a[0];
    if a[0] != c {
      assert (a + b)[1..] == a[1..] + b;
      IndexOfPrefix(a[1..], b, c);
    }
  }

  lemma {:induction false} IndexOfAfter(a: string, b: string, c: char)
    requires c !in a && c in b
    ensures c in a + b && IndexOf(a + b, c) == |a| + IndexOf(b, c)
    decreases |a|
  {
    if a == [] {
      assert a + b == b;
    } else {
      assert (a + b)[0] == a[0];
      assert (a + b)[1..] == a[1..] + b;
      IndexOfAfter(a[1..], b, c);
    }
  }

  /** `s.split(sep)`: the pieces between the separators, empty ones included. */
  function Split(s: string, sep: char): (parts: seq<string>)
    ensures |parts| >= 1
    ensures forall k :: 0 <= k < |parts| ==> sep !in parts[k]
    decreases |s|
  {
    if sep !in s then [s]
    else
      var i := IndexOf(s, sep);
      [s[..i]] + Split(s[i + 1..], sep)
  }

  /** `sep.join(parts)`. */
  function Join(parts: seq<string>, sep: char): string
    requires |parts| >= 1
  {
    if |parts| == 1 then parts[0] else parts[0] + [sep] + Join(parts[1..], sep)
  }

  /** Splitting and joining again gives back the original string. */
  lemma {:induction false} SplitJoin(s: string, sep: char)
    ensures Join(Split(s, sep), sep) == s
    decreases |s|
  {
    if sep in s {
      var i := IndexOf(s, sep);
      var rest := s[i + 1..];
      SplitJoin(rest, sep);
      assert Split(s, sep) == [s[..i]] + Split(rest, sep);
      JoinCons(s[..i], Split(rest, sep), sep);
      Reassemble(s, i);
    } else {
      assert Split(s, sep) == [s];
    }
  }

  /** A string is the part before index `i`, the character at `i`, and the part after it. */
  lemma {:induction false} Reassemble(s: string, i: nat)
    requires i < |s|
    ensures s == s[..i] + [s[i]] + s[i + 1..]
  {
  }

  /** Joining a first piece in front of at least one more. */
  lemma {:induction false} JoinCons(head: string, tail: seq<string>, sep: char)
    requires |tail| >= 1
    ensures Join([head] + tail, sep) == head + [sep] + Join(tail, sep)
  {
    assert ([head] + tail)[1..] == tail;
  }

  /** A string holding the separator splits into at least two pieces. */
  lemma {:induction false} SplitAtSep(s: string, sep: char)
    requires sep in s
    ensures |Split(s, sep)| >= 2
  {
    var i := IndexOf(s, sep);
    assert Split(s, sep) == [s[..i]] + Split(s[i + 1..], sep);
  }

  /** A last piece without separators is split off as the last element. */
  lemma {:induction false} SplitSnoc(a: string, sep: char, b: string)
    requires sep !in b
    ensures Split(a + [sep] + b, sep) == Split(a, sep) + [b]
    decreases |a|
  {
    if sep !in a {
      SplitFirstPiece(a, sep, b);
      assert Split(b, sep) == [b];
    } else {
      var s := a + [sep] + b;
      var i := IndexOf(a, sep);
      IndexOfPrefix(a, [sep] + b, sep);
      assert s == a + ([sep] + b);
      assert s[..i] == a[..i];
      assert s[i + 1..] == a[i + 1..] + [sep] + b;
      SplitSnoc(a[i + 1..], sep, b);
      assert Split(s, sep) == [a[..i]] + (Split(a[i + 1..], sep) + [b]);
      assert Split(a, sep) == [a[..i]] + Split(a[i + 1..], sep);
    }
  }

  /** A first piece without separators is split off as the first element. */
  lemma {:induction false} SplitFirstPiece(a: string, sep: char, b: string)
    requires sep !in a
    ensures Split(a + [sep] + b, sep) == [a] + Split(b, sep)
  {
    var s := a + [sep] + b;
    IndexOfAfter(a, [sep] + b, sep);
    assert s == a + ([sep] + b);
    assert IndexOf([sep] + b, sep) == 0;
    assert s[..|a|] == a;
    assert s[|a| + 1..] == b;
  }

  /** Index of the last `c` in `s` (`str.rfind`). */
  function LastIndexOf(s: string, c: char): (i: nat)
    requires c in s
    ensures i < |s| && s[i] == c && c !in s[i + 1..]
  {
    if s[|s| - 1] == c then |s| - 1
    else
      assert s[..|s| - 1] + [s[|s| - 1]] == s;
      LastIndexOf(s[..|s| - 1], c)
  }

  /** The last `c` of `a + [c] + b` is the one before `b` when `b` has none. */
  lemma {:induction false} LastIndexOfSnoc(a: string, c: char, b: string)
    requires c !in b
    ensures c in a + [c] + b && LastIndexOf(a + [c] + b, c) == |a|
  {
    assert (a + [c] + b)[|a|] == c;
  }

  /** Joining one more piece appends the separator and that piece. */
  lemma {:induction false} JoinSnoc(parts: seq<string>, sep: char, last: string)
    requires |parts| >= 1
    ensures Join(parts + [last], sep) == Join(parts, sep) + [sep] + last
    decreases |parts|
  {
    if |parts| > 1 {
      assert (parts + [last])[1..] == parts[1..] + [last];
      JoinSnoc(parts[1..], sep, last);
    }
  }

  /** A character absent from `s` is absent from every piece of `s.split(sep)`. */
  lemma {:induction false} SplitFree(s: string, sep: char, c: char)
    requires c !in s
    ensures forall k :: 0 <= k < |Split(s, sep)| ==> c !in Split(s, sep)[k]
    decreases |s|
  {
    if sep in s {
      var i := IndexOf(s, sep);
      assert forall j :: 0 <= j < i ==> s[..i][j] == s[j];
      SplitFree(s[i + 1..], sep, c);
    }
  }

  /** A character other than `sep` that no piece contains is absent from `sep.join(parts)`. */
  lemma {:induction false} JoinFree(parts: seq<string>, sep: char, c: char)
    requires |parts| >= 1 && c != sep
    requires forall k :: 0 <= k < |parts| ==> c !in parts[k]
    ensures c !in Join(parts, sep)
    decreases |parts|
  {
    if |parts| > 1 {
      JoinFree(parts[1..], sep, c);
    }
  }

  /** `s.replace(c, "")` for a one-character `c`. */
  function Remove(s: string, c: char): (r: string)
    ensures c !in r && |r| <= |s|
    ensures c !in s ==> r == s
  {
    if s == [] then [] else (if s[0] == c then [] else [s[0]]) + Remove(s[1..], c)
  }

  /** Removing distributes over concatenation: every other character survives, in order. */
  lemma {:induction false} RemoveAppend(a: string, b: string, c: char)
    ensures Remove(a + b, c) == Remove(a, c) + Remove(b, c)
    decreases |a|
  {
    if a == [] {
      assert a + b == b;
    } else {
      assert (a + b)[0] == a[0] && (a + b)[1..] == a[1..] + b;
      RemoveAppend(a[1..], b, c);
    }
  }

  /** A single character is dropped if it is `c` and kept otherwise. */
  lemma {:induction false} RemoveChar(x: char, c: char)
    ensures Remove([x], c) == (if x == c then [] else [x])
  {
    assert [x][1..] == [];
  }

  /** Removing a separator between two separator-free texts joins them. */
  lemma {:induction false} RemoveSeparator(a: string, b: string, c: char)
    requires c !in a && c !in b
    ensures Remove(a + [c] + b, c) == a + b
  {
    RemoveAppend(a + [c], b, c);
    RemoveAppend(a, [c], c);
  }
}
