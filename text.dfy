/** The text normaliser `clean_text` (app.py:17-23) and the Python string operations the scraper
    relies on: `str.split()`, `" ".join`, `str.lower()`, `in` on strings and `str.replace`. */
module Text {
  import opened Wrappers

  const NoBreakSpace: char := '\U{00A0}'
  const ReplacementChar: char := '\U{FFFD}'

  /** Python's `str.isspace`: the characters that `str.split()` and `str.strip()` treat as
      whitespace. U+00A0 is one of them. */
  predicate IsSpace(c: char) {
    c == ' ' || '\t' <= c <= '\r' || '\U{001C}' <= c <= '\U{001F}' || c == '\U{0085}'
    || c == NoBreakSpace || c == '\U{1680}' || '\U{2000}' <= c <= '\U{200A}'
    || c == '\U{2028}' || c == '\U{2029}' || c == '\U{202F}' || c == '\U{205F}' || c == '\U{3000}'
  }

  /** A word of `str.split()`: non-empty, without whitespace. */
  predicate IsWord(w: string) {
    |w| > 0 && forall i :: 0 <= i < |w| ==> !IsSpace(w[i])
  }

  /** The normaliser's output shape: whitespace occurs only as a single ' ' strictly between two
      non-whitespace characters (so none leads, none trails, no run of two). */
  predicate Canonical(s: string) {
    forall i :: 0 <= i < |s| && IsSpace(s[i]) ==>
      s[i] == ' ' && 0 < i < |s| - 1 && !IsSpace(s[i - 1]) && !IsSpace(s[i + 1])
  }

  predicate NoReplacementChar(s: string) {
    forall i :: 0 <= i < |s| ==> s[i] != ReplacementChar
  }

  /** `text.replace("\xa0", " ").replace("�", " ")`. */
  function ReplaceOddSpaces(s: string): string {
    seq(|s|, i requires 0 <= i < |s| => if s[i] == NoBreakSpace || s[i] == ReplacementChar then ' ' else s[i])
  }

  /** The longest prefix without whitespace. */
  function TakeWord(s: string): (w: string)
    ensures |w| <= |s| && w == s[..|w|]
    ensures forall i :: 0 <= i < |w| ==> !IsSpace(w[i])
    ensures |w| == |s| || IsSpace(s[|w|])
  {
    if s == [] || IsSpace(s[0]) then [] else [s[0]] + TakeWord(s[1..])
  }

  /** Python's `str.split()` without a separator: the maximal runs of non-whitespace, in order. */
  function Split(s: string): seq<string>
    decreases |s|
  {
    if s == [] then []
    else if IsSpace(s[0]) then Split(s[1..])
    else
      var w := TakeWord(s);
      [w] + Split(s[|w|..])
  }

  /** `" ".join(ws)`. */
  function Join(ws: seq<string>): string {
    if ws == [] then "" else if |ws| == 1 then ws[0] else ws[0] + " " + Join(ws[1..])
  }

  /** The non-empty branch of `clean_text`. The `strip()` of the source is absorbed by `split()`,
      which ignores leading and trailing whitespace. */
  function Collapse(s: string): string {
    Join(Split(ReplaceOddSpaces(s)))
  }

  /** Python truthiness of an optional string: present and non-empty. */
  predicate Truthy(s: Option<string>) {
    s.Some? && s.value != ""
  }

  /** `clean_text`: `None` for a missing or empty input; otherwise the input with U+00A0 and U+FFFD
      made spaces and its whitespace-separated words joined by single spaces. */
  function CleanText(text: Option<string>): (r: Option<string>)
    ensures r.None? <==> !Truthy(text)
    ensures r.Some? ==> Canonical(r.value) && NoReplacementChar(r.value)
    ensures r.Some? && r.value != "" ==> !IsSpace(r.value[0]) && !IsSpace(r.value[|r.value| - 1])
  {
    if !Truthy(text) then None
    else
      SplitWords(ReplaceOddSpaces(text.value));
      SplitAvoids(ReplaceOddSpaces(text.value), ReplacementChar);
      JoinCanonical(Split(ReplaceOddSpaces(text.value)));
      Some(Collapse(text.value))
  }

  /** Every piece `split()` returns is a word. */
  lemma {:induction false} SplitWords(s: string)
    ensures forall k :: 0 <= k < |Split(s)| ==> IsWord(Split(s)[k])
    decreases |s|
  {
    if s == [] {
    } else if IsSpace(s[0]) {
      SplitWords(s[1..]);
    } else {
      var w := TakeWord(s);
      SplitWords(s[|w|..]);
    }
  }

  /** A character that does not occur in the input occurs in none of the words `split()` returns. */
  lemma {:induction false} SplitAvoids(s: string, c: char)
    requires forall i :: 0 <= i < |s| ==> s[i] != c
    ensures forall k, i :: 0 <= k < |Split(s)| && 0 <= i < |Split(s)[k]| ==> Split(s)[k][i] != c
    decreases |s|
  {
    if s == [] {
    } else if IsSpace(s[0]) {
      SplitAvoids(s[1..], c);
    } else {
      var w := TakeWord(s);
      SplitAvoids(s[|w|..], c);
    }
  }

  /** Joining words with single spaces gives the canonical shape, and adds no character other than ' '. */
  lemma {:induction false} JoinCanonical(ws: seq<string>)
    requires forall k :: 0 <= k < |ws| ==> IsWord(ws[k])
    requires forall k, i :: 0 <= k < |ws| && 0 <= i < |ws[k]| ==> ws[k][i] != ReplacementChar
    ensures Canonical(Join(ws)) && NoReplacementChar(Join(ws))
    ensures ws != [] ==> |Join(ws)| > 0 && !IsSpace(Join(ws)[0]) && !IsSpace(Join(ws)[|Join(ws)| - 1])
  {
    if |ws| == 1 {
      assert Join(ws) == ws[0];
    } else if |ws| > 1 {
      var w, j := ws[0], Join(ws[1..]);
      JoinCanonical(ws[1..]);
      assert IsWord(ws[1]);
      var s := w + " " + j;
      assert Join(ws) == s;
      forall i | 0 <= i < |s|
        ensures IsSpace(s[i]) ==> s[i] == ' ' && 0 < i < |s| - 1 && !IsSpace(s[i - 1]) && !IsSpace(s[i + 1])
      {
        if i < |w| {
          assert s[i] == w[i];
        } else if i > |w| {
          assert s[i] == j[i - |w| - 1];
          if i - 1 > |w| { assert s[i - 1] == j[i - |w| - 2]; }
          if i + 1 < |s| { assert s[i + 1] == j[i - |w|]; }
        }
      }
      forall i | 0 <= i < |s| ensures s[i] != ReplacementChar {
        if i < |w| { assert s[i] == w[i]; }
        else if i > |w| { assert s[i] == j[i - |w| - 1]; }
      }
    }
  }

  /** `split()` skips a leading whitespace character. */
  lemma SplitSkipsSpace(c: char, s: string)
    requires IsSpace(c)
    ensures Split([c] + s) == Split(s)
  {
    assert ([c] + s)[1..] == s;
  }

  /** `split()` takes a leading word whole when whitespace or the end follows it. */
  lemma SplitWordThen(w: string, rest: string)
    requires IsWord(w)
    requires rest == [] || IsSpace(rest[0])
    ensures Split(w + rest) == [w] + Split(rest)
  {
    TakeWordOf(w, rest);
    assert (w + rest)[|w|..] == rest;
  }

  /** `split()` undoes `" ".join` on words. */
  lemma {:induction false} SplitJoin(ws: seq<string>)
    requires forall k :: 0 <= k < |ws| ==> IsWord(ws[k])
    ensures Split(Join(ws)) == ws
  {
    if |ws| == 1 {
      SplitWordThen(ws[0], "");
      assert ws[0] + "" == ws[0];
    } else if |ws| > 1 {
      var tail := Join(ws[1..]);
      assert ws[0] + " " + tail == ws[0] + (" " + tail);
      SplitWordThen(ws[0], " " + tail);
      SplitSkipsSpace(' ', tail);
      SplitJoin(ws[1..]);
      assert ws == [ws[0]] + ws[1..];
    }
  }

  lemma {:induction false} TakeWordOf(w: string, rest: string)
    requires forall i :: 0 <= i < |w| ==> !IsSpace(w[i])
    requires rest == [] || IsSpace(rest[0])
    ensures TakeWord(w + rest) == w
  {
    if w != [] {
      assert (w + rest)[1..] == w[1..] + rest;
      TakeWordOf(w[1..], rest);
    } else {
      assert w + rest == rest;
    }
  }

  /** `split()` finds no word exactly when the string is all whitespace. */
  lemma {:induction false} SplitEmpty(s: string)
    ensures Split(s) == [] <==> forall i :: 0 <= i < |s| ==> IsSpace(s[i])
  {
    if s != [] && IsSpace(s[0]) {
      SplitEmpty(s[1..]);
      assert forall i :: 1 <= i < |s| ==> s[i] == s[1..][i - 1];
    }
  }

  /** Normalising keeps the words of the input (after the two replacements), and only those. */
  lemma CleanTextWords(text: string)
    requires text != ""
    ensures CleanText(Some(text)) == Some(Join(Split(ReplaceOddSpaces(text))))
    ensures Split(CleanText(Some(text)).value) == Split(ReplaceOddSpaces(text))
  {
    SplitWords(ReplaceOddSpaces(text));
    SplitJoin(Split(ReplaceOddSpaces(text)));
  }

  /** A whitespace-only input (U+FFFD counts, being replaced by a space) normalises to "" rather
      than `None`; any other non-empty input to a non-empty string. */
  lemma CleanTextBlank(text: string)
    requires text != ""
    ensures CleanText(Some(text)) == Some("") <==>
      forall i :: 0 <= i < |text| ==> IsSpace(text[i]) || text[i] == ReplacementChar
  {
    var r := ReplaceOddSpaces(text);
    SplitEmpty(r);
    SplitWords(r);
    SplitAvoids(r, ReplacementChar);
    if Split(r) != [] {
      JoinCanonical(Split(r));
    }
    assert forall i :: 0 <= i < |text| ==> (IsSpace(r[i]) <==> IsSpace(text[i]) || text[i] == ReplacementChar);
  }

  /** Normalising a non-empty normalised string changes nothing. */
  lemma CleanTextIdempotent(text: Option<string>)
    requires Truthy(CleanText(text))
    ensures CleanText(CleanText(text)) == CleanText(text)
  {
    var x := CleanText(text).value;
    var r := ReplaceOddSpaces(text.value);
    assert x == Join(Split(r));
    assert ReplaceOddSpaces(x) == x;
    SplitWords(r);
    SplitJoin(Split(r));
  }

  /** A canonical string is the words `split()` finds in it, joined by single spaces. */
  lemma {:induction false} JoinSplitCanonical(s: string)
    requires Canonical(s)
    ensures Join(Split(s)) == s
    decreases |s|
  {
    if s != [] {
      var w := TakeWord(s);
      assert !IsSpace(s[0]);
      if |w| == |s| {
        SplitWordThen(w, []);
        assert w + [] == s;
      } else {
        var rest := s[|w| + 1..];
        CanonicalTail(s, |w|);
        assert s == w + ([' '] + rest);
        SplitWordThen(w, [' '] + rest);
        SplitSkipsSpace(' ', rest);
        JoinSplitCanonical(rest);
        assert Split(rest) != [];
        JoinCons(w, Split(rest));
        assert s == w + " " + rest;
      }
    }
  }

  lemma JoinCons(w: string, ws: seq<string>)
    requires ws != []
    ensures Join([w] + ws) == w + " " + Join(ws)
  {
    assert ([w] + ws)[1..] == ws;
  }

  /** After the space at `n` of a canonical string comes a canonical, non-empty rest that starts
      with a word. */
  lemma CanonicalTail(s: string, n: nat)
    requires Canonical(s) && n < |s| && IsSpace(s[n])
    ensures s[n] == ' ' && s == s[..n] + [' '] + s[n + 1..]
    ensures s[n + 1..] != [] && !IsSpace(s[n + 1]) && Canonical(s[n + 1..])
  {
    var rest := s[n + 1..];
    forall i | 0 <= i < |rest| && IsSpace(rest[i])
      ensures rest[i] == ' ' && 0 < i < |rest| - 1 && !IsSpace(rest[i - 1]) && !IsSpace(rest[i + 1])
    {
      assert rest[i] == s[i + n + 1];
      if i > 0 { assert rest[i - 1] == s[i + n]; }
      if i + 1 < |rest| { assert rest[i + 1] == s[i + n + 2]; }
    }
  }

  /** The strings `clean_text` returns unchanged are exactly the non-empty canonical ones without
      U+FFFD: together with the postconditions of `CleanText`, its outputs and its fixed points
      coincide. */
  lemma CleanTextFixed(s: string)
    requires s != "" && Canonical(s) && NoReplacementChar(s)
    ensures CleanText(Some(s)) == Some(s)
  {
    assert ReplaceOddSpaces(s) == s;
    JoinSplitCanonical(s);
  }

  // ---------------------------------------------------------------------------------------------
  // Other string operations of the scraper.

  /** `str.lower()` on ASCII letters; other characters are kept. */
  function LowerChar(c: char): char {
    if 'A' <= c <= 'Z' then (c as int + 32) as char else c
  }

  function Lower(s: string): (r: string)
    ensures |r| == |s|
  {
    seq(|s|, i requires 0 <= i < |s| => LowerChar(s[i]))
  }

  /** Python's `sub in s`: `sub` occurs at some position of `s`. */
  predicate Contains(s: string, sub: string)
    decreases |s|
  {
    |sub| <= |s| && (s[..|sub|] == sub || Contains(s[1..], sub))
  }

  /** `s.replace(pat, repl)`: every non-overlapping occurrence of `pat`, scanning left to right,
      is replaced. */
  function ReplaceAll(s: string, pat: string, repl: string): string
    requires pat != []
    decreases |s|
  {
    if |s| < |pat| then s
    else if s[..|pat|] == pat then repl + ReplaceAll(s[|pat|..], pat, repl)
    else [s[0]] + ReplaceAll(s[1..], pat, repl)
  }

  /** A character that cannot start the pattern is copied, and the scan moves on. */
  lemma ReplaceAllSkip(c: char, rest: string, pat: string, repl: string)
    requires pat != [] && c != pat[0]
    ensures ReplaceAll([c] + rest, pat, repl) == [c] + ReplaceAll(rest, pat, repl)
  {
    assert ([c] + rest)[1..] == rest;
    if |[c] + rest| >= |pat| {
      assert ([c] + rest)[..|pat|][0] != pat[0];
    }
  }

  /** An occurrence at the scan position is replaced, and the scan resumes after it. */
  lemma ReplaceAllHit(rest: string, pat: string, repl: string)
    requires pat != []
    ensures ReplaceAll(pat + rest, pat, repl) == repl + ReplaceAll(rest, pat, repl)
  {
    assert (pat + rest)[..|pat|] == pat;
    assert (pat + rest)[|pat|..] == rest;
  }

  /** A stretch none of whose characters can start the pattern is copied unchanged. */
  lemma {:induction false} ReplaceAllCopies(a: string, rest: string, pat: string, repl: string)
    requires pat != [] && forall i :: 0 <= i < |a| ==> a[i] != pat[0]
    ensures ReplaceAll(a + rest, pat, repl) == a + ReplaceAll(rest, pat, repl)
  {
    if a != [] {
      ReplaceAllCopies(a[1..], rest, pat, repl);
      assert a + rest == [a[0]] + (a[1..] + rest);
      ReplaceAllSkip(a[0], a[1..] + rest, pat, repl);
      assert a == [a[0]] + a[1..];
    } else {
      assert a + rest == rest;
    }
  }

  /** A string with a single occurrence of the pattern, and no other character that could start
      one, has that occurrence replaced and nothing else changed. */
  lemma ReplaceOnce(a: string, rest: string, pat: string, repl: string)
    requires pat != []
    requires forall i :: 0 <= i < |a| ==> a[i] != pat[0]
    requires forall i :: 0 <= i < |rest| ==> rest[i] != pat[0]
    ensures ReplaceAll(a + pat + rest, pat, repl) == a + repl + rest
  {
    assert a + pat + rest == a + (pat + rest);
    ReplaceAllCopies(a, pat + rest, pat, repl);
    ReplaceAllHit(rest, pat, repl);
    ReplaceAllCopies(rest, [], pat, repl);
    assert rest + [] == rest;
  }

  /** The character `c` occurs nowhere in `s`. */
  predicate Avoids(s: string, c: char) {
    forall i :: 0 <= i < |s| ==> s[i] != c
  }

  lemma AvoidsConcat(a: string, b: string, c: char)
    requires Avoids(a, c) && Avoids(b, c)
    ensures Avoids(a + b, c)
  {
    assert forall i :: |a| <= i < |a + b| ==> (a + b)[i] == b[i - |a|];
  }
}
