/**
 * `name_formatter` (src/myanimelist_scraper/utils.py): lowercase, replace
 * every maximal run of characters outside `[a-z0-9]` by one `_`, strip `_`
 * at both ends, and append `_` and the date. The date, `datetime.now`
 * formatted as `%Y-%m-%d`, is a parameter.
 */
module Utils {
  import opened Text

  /** A character of the class `[a-z0-9]`. */
  predicate IsWordChar(c: char) {
    'a' <= c <= 'z' || '0' <= c <= '9'
  }

  /**
   * `re.sub(r"[^a-z0-9]+", "_", s)`, read left to right; `inRun` says that
   * the previous character was already part of a replaced run.
   */
  function CollapseFrom(s: string, inRun: bool): string {
    if s == [] then []
    else if IsWordChar(s[0]) then [s[0]] + CollapseFrom(s[1..], false)
    else if inRun then CollapseFrom(s[1..], true)
    else "_" + CollapseFrom(s[1..], true)
  }

  function Collapse(s: string): string {
    CollapseFrom(s, false)
  }

  /** `re.sub(r"[^a-z0-9]+", "_", s).strip("_")`. */
  function Snake(s: string): string {
    TrimEnd(TrimStart(Collapse(s), Chars("_")), Chars("_"))
  }

  /** `name_formatter(input_string)` on the day `date`. */
  function NameFormatter(input: string, date: string): (r: string)
    ensures |r| > |date| && r[|r| - |date|..] == date && r[|r| - |date| - 1] == '_'
  {
    Snake(Lower(input)) + "_" + date
  }

  /** The characters of `[a-z0-9]` in `s`, in order. */
  function WordChars(s: string): string {
    if s == [] then [] else (if IsWordChar(s[0]) then [s[0]] else []) + WordChars(s[1..])
  }

  lemma {:induction false} WordCharsAppend(a: string, b: string)
    ensures WordChars(a + b) == WordChars(a) + WordChars(b)
    decreases |a|
  {
    if a == [] {
      assert a + b == b;
    } else {
      var head := if IsWordChar(a[0]) then [a[0]] else [];
      assert (a + b)[0] == a[0];
      assert (a + b)[1..] == a[1..] + b;
      WordCharsAppend(a[1..], b);
      assert WordChars(a + b) == head + (WordChars(a[1..]) + WordChars(b));
      assert WordChars(a) == head + WordChars(a[1..]);
    }
  }

  /** A string of underscores has no word characters. */
  lemma {:induction false} WordCharsOfUnderscores(s: string)
    requires forall k :: 0 <= k < |s| ==> s[k] == '_'
    ensures WordChars(s) == []
    decreases |s|
  {
    if s != [] {
      WordCharsOfUnderscores(s[1..]);
    }
  }

  /** Every character of `r` is in `[a-z0-9_]`. */
  predicate WordOrUnderscore(r: string) {
    forall k :: 0 <= k < |r| ==> IsWordChar(r[k]) || r[k] == '_'
  }

  /** `r` never has two `_` in a row. */
  predicate NoDoubleUnderscore(r: string) {
    forall k :: 0 <= k < |r| - 1 ==> !(r[k] == '_' && r[k + 1] == '_')
  }

  /** The replacement writes only word characters and `_`. */
  lemma {:induction false} CollapseChars(s: string, inRun: bool)
    ensures WordOrUnderscore(CollapseFrom(s, inRun))
    decreases |s|
  {
    if s != [] {
      var rest := CollapseFrom(s[1..], !IsWordChar(s[0]));
      CollapseChars(s[1..], !IsWordChar(s[0]));
      var head := if IsWordChar(s[0]) then [s[0]] else if inRun then [] else "_";
      assert CollapseFrom(s, inRun) == head + rest;
      assert WordOrUnderscore(head);
    }
  }

  /** Putting `c` in front keeps the runs single when `c` is not a second `_`. */
  lemma {:induction false} NoDoubleCons(c: char, rest: string)
    requires NoDoubleUnderscore(rest) && (c == '_' && rest != [] ==> rest[0] != '_')
    ensures NoDoubleUnderscore([c] + rest)
  {
    var r := [c] + rest;
    forall k | 0 <= k < |r| - 1 ensures !(r[k] == '_' && r[k + 1] == '_') {
      if k > 0 {
        assert r[k] == rest[k - 1] && r[k + 1] == rest[k];
      }
    }
  }

  /** One `_` per run: never two in a row, and none at the start once inside a run. */
  lemma {:induction false} CollapseNoDouble(s: string, inRun: bool)
    ensures var r := CollapseFrom(s, inRun);
            NoDoubleUnderscore(r) && (inRun && r != [] ==> r[0] != '_')
    decreases |s|
  {
    if s != [] {
      var rest := CollapseFrom(s[1..], !IsWordChar(s[0]));
      CollapseNoDouble(s[1..], !IsWordChar(s[0]));
      if IsWordChar(s[0]) {
        NoDoubleCons(s[0], rest);
      } else if !inRun {
        NoDoubleCons('_', rest);
      }
    }
  }

  /** The replacement keeps every word character, in order. */
  lemma {:induction false} CollapseWordChars(s: string, inRun: bool)
    ensures WordChars(CollapseFrom(s, inRun)) == WordChars(s)
    decreases |s|
  {
    if s != [] {
      var rest := CollapseFrom(s[1..], !IsWordChar(s[0]));
      CollapseWordChars(s[1..], !IsWordChar(s[0]));
      if IsWordChar(s[0]) {
        WordCharsAppend([s[0]], rest);
      } else if !inRun {
        WordCharsAppend("_", rest);
      }
    }
  }

  /** Where `Snake(s)` starts inside `Collapse(s)`: after the leading underscores. */
  function SnakeStart(s: string): int {
    |Collapse(s)| - |TrimStart(Collapse(s), Chars("_"))|
  }

  /** `Snake(s)` is a piece of `Collapse(s)` from which only underscores were cut away, at both ends. */
  lemma {:induction false} SnakeSlice(s: string)
    ensures var c := Collapse(s); var t := Snake(s); var i := SnakeStart(s);
            && 0 <= i <= |c| - |t| && t == c[i..i + |t|]
            && (forall k :: 0 <= k < i ==> c[k] == '_')
            && (forall k :: i + |t| <= k < |c| ==> c[k] == '_')
            && (t != [] ==> t[0] != '_' && t[|t| - 1] != '_')
  {
    TrimSpec(Collapse(s), Chars("_"));
  }

  /** Only `a-z`, `0-9` and `_`; no `_` at either end; never two `_` in a row. */
  lemma {:induction false} SnakeShape(s: string)
    ensures var t := Snake(s);
            && WordOrUnderscore(t) && NoDoubleUnderscore(t)
            && (t != [] ==> t[0] != '_' && t[|t| - 1] != '_')
  {
    var c := Collapse(s);
    var t := Snake(s);
    SnakeSlice(s);
    var i := SnakeStart(s);
    assert c == CollapseFrom(s, false);
    CollapseChars(s, false);
    CollapseNoDouble(s, false);
    forall k | 0 <= k < |t| ensures IsWordChar(t[k]) || t[k] == '_' {
      assert t[k] == c[i + k];
    }
    forall k | 0 <= k < |t| - 1 ensures !(t[k] == '_' && t[k + 1] == '_') {
      assert t[k] == c[i + k] && t[k + 1] == c[i + k + 1];
    }
  }

  /** The word characters of the input survive in the snake part, in their original order. */
  lemma {:induction false} SnakeWordChars(s: string)
    ensures WordChars(Snake(s)) == WordChars(s)
  {
    var c, t, i := Collapse(s), Snake(s), SnakeStart(s);
    SnakeSlice(s);
    var pre, post := c[..i], c[i + |t|..];
    assert c == pre + t + post;
    assert WordChars(pre) == [] by {
      forall k | 0 <= k < |pre| ensures pre[k] == '_' {
        assert pre[k] == c[k];
      }
      WordCharsOfUnderscores(pre);
    }
    assert WordChars(post) == [] by {
      forall k | 0 <= k < |post| ensures post[k] == '_' {
        assert post[k] == c[i + |t| + k];
      }
      WordCharsOfUnderscores(post);
    }
    WordCharsAppend(pre + t, post);
    WordCharsAppend(pre, t);
    assert WordChars(c) == [] + WordChars(t) + [];
    assert [] + WordChars(t) + [] == WordChars(t);
    CollapseWordChars(s, false);
  }

  /** A snake part without word characters is empty. */
  lemma {:induction false} EmptySnake(s: string)
    requires WordChars(s) == []
    ensures Snake(s) == []
  {
    var t := Snake(s);
    SnakeShape(s);
    SnakeWordChars(s);
  }

  /** An input without ASCII letters or digits is named `_<date>`. */
  lemma {:induction false} NoWordCharsName(input: string, date: string)
    requires forall k :: 0 <= k < |input| ==> !IsWordChar(LowerChar(input[k]))
    ensures NameFormatter(input, date) == "_" + date
  {
    var l := Lower(input);
    assert WordChars(l) == [] by {
      LowerAt(input);
      NoWordChars(l);
    }
    EmptySnake(l);
    assert [] + "_" + date == "_" + date;
  }

  lemma {:induction false} NoWordChars(s: string)
    requires forall k :: 0 <= k < |s| ==> !IsWordChar(s[k])
    ensures WordChars(s) == []
    decreases |s|
  {
    if s != [] {
      NoWordChars(s[1..]);
    }
  }

  /** Letter case does not matter: an input and its lowercase form get the same name. */
  lemma {:induction false} CaseInsensitive(input: string, date: string)
    ensures NameFormatter(Lower(input), date) == NameFormatter(input, date)
  {
    LowerIdempotent(input);
  }

  /** Two inputs that differ only in letter case get the same name. */
  lemma {:induction false} SameLowerSameName(a: string, b: string, date: string)
    requires |a| == |b|
    requires forall i :: 0 <= i < |a| ==> LowerChar(a[i]) == LowerChar(b[i])
    ensures NameFormatter(a, date) == NameFormatter(b, date)
  {
    LowerAt(a);
    LowerAt(b);
    assert Lower(a) == Lower(b);
  }
}
