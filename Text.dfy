/**
 * The few string operations of Python's `str` that the core relies on:
 * `split()`, `upper()`, `rstrip()` and taking the first line.
 * Strings are sequences of Unicode code points.
 */
module Text {
  import opened SeqUtil

  /** Python's whitespace (`str.isspace`), the separators of `split()` and what `rstrip()` removes. */
  predicate IsSpace(c: char) {
    var n := c as int;
    || 9 <= n <= 13
    || 0x1C <= n <= 0x20
    || n == 0x85 || n == 0xA0 || n == 0x1680
    || 0x2000 <= n <= 0x200A
    || n == 0x2028 || n == 0x2029 || n == 0x202F || n == 0x205F || n == 0x3000
  }

  predicate NoSpace(s: string) {
    forall c :: c in s ==> !IsSpace(c)
  }

  /** The characters of `s` that are not whitespace, in order. */
  function RemoveSpaces(s: string): (r: string)
    ensures NoSpace(r)
  {
    if s == [] then []
    else (if IsSpace(s[0]) then [] else [s[0]]) + RemoveSpaces(s[1..])
  }

  /**
   * `split()` on the rest `s` of a string whose current, unfinished token is
   * `token`: whitespace runs separate tokens and empty tokens are dropped.
   */
  function SplitFrom(s: string, token: string): (parts: seq<string>)
    requires NoSpace(token)
    ensures forall t :: t in parts ==> t != [] && NoSpace(t)
    ensures Flatten(parts) == token + RemoveSpaces(s)
    decreases |s|
  {
    if s == [] then
      assert token + RemoveSpaces(s) == token;
      if token == [] then [] else [token]
    else if IsSpace(s[0]) then
      var rest := SplitFrom(s[1..], []);
      FlattenConcat(if token == [] then [] else [token], rest);
      assert RemoveSpaces(s) == RemoveSpaces(s[1..]);
      (if token == [] then [] else [token]) + rest
    else
      var rest := SplitFrom(s[1..], token + [s[0]]);
      assert RemoveSpaces(s) == [s[0]] + RemoveSpaces(s[1..]);
      rest
  }

  /** Python's `s.split()`. */
  function Split(s: string): (parts: seq<string>)
    ensures forall t :: t in parts ==> t != [] && NoSpace(t)
    ensures Flatten(parts) == RemoveSpaces(s)
  {
    SplitFrom(s, [])
  }

  predicate Word(t: string) {
    t != [] && NoSpace(t)
  }

  lemma {:induction false} SplitFromWord(t: string, s: string, token: string)
    requires NoSpace(t) && NoSpace(token)
    ensures NoSpace(token + t)
    ensures SplitFrom(t + s, token) == SplitFrom(s, token + t)
    decreases |t|
  {
    if t == [] {
      assert t + s == s && token + t == token;
    } else {
      assert (t + s)[0] == t[0] && (t + s)[1..] == t[1..] + s;
      assert t[0] in t;
      assert forall c :: c in t[1..] ==> c in t;
      SplitFromWord(t[1..], s, token + [t[0]]);
      assert token + [t[0]] + t[1..] == token + t;
    }
  }

  /** A separator `split()` skips: whitespace only, possibly empty. */
  predicate AllSpace(sep: string) {
    forall c :: c in sep ==> IsSpace(c)
  }

  /** `words` laid out between separators: `seps[0] + words[0] + seps[1] + … + words[n-1] + seps[n]`. */
  function JoinWith(words: seq<string>, seps: seq<string>): string
    requires |seps| == |words| + 1
    decreases |words|
  {
    if words == [] then seps[0]
    else seps[0] + words[0] + JoinWith(words[1..], seps[1..])
  }

  /** Separators of a name: whitespace only, and at least one character between two words. */
  predicate Separators(words: seq<string>, seps: seq<string>) {
    && |seps| == |words| + 1
    && (forall i :: 0 <= i < |seps| ==> AllSpace(seps[i]))
    && forall i :: 0 < i < |words| ==> seps[i] != []
  }

  /** Leading whitespace does not change the split. */
  lemma {:induction false} SplitFromSpaces(sep: string, rest: string)
    requires AllSpace(sep)
    ensures SplitFrom(sep + rest, []) == SplitFrom(rest, [])
    decreases |sep|
  {
    if sep == [] {
      assert sep + rest == rest;
    } else {
      assert sep[0] in sep;
      assert (sep + rest)[1..] == sep[1..] + rest;
      assert forall c :: c in sep[1..] ==> c in sep;
      SplitFromSpaces(sep[1..], rest);
    }
  }

  /** A whitespace character or the end of the string closes the current token. */
  lemma CloseToken(rest: string, token: string)
    requires token != [] && NoSpace(token)
    requires rest == [] || IsSpace(rest[0])
    ensures SplitFrom(rest, token) == [token] + SplitFrom(rest, [])
  {
    if rest != [] {
      assert SplitFrom(rest, []) == [] + SplitFrom(rest[1..], []);
    }
  }

  /** After the first word, the layout is again words between separators, and it is empty or starts with whitespace. */
  lemma SeparatorsTail(words: seq<string>, seps: seq<string>)
    requires words != [] && Separators(words, seps)
    ensures Separators(words[1..], seps[1..])
    ensures var rest := JoinWith(words[1..], seps[1..]); rest == [] || IsSpace(rest[0])
  {
    forall i | 0 <= i < |seps[1..]| ensures AllSpace(seps[1..][i]) {
      assert AllSpace(seps[i + 1]);
    }
    var rest := JoinWith(words[1..], seps[1..]);
    assert AllSpace(seps[1]);
    if seps[1] != [] {
      assert rest[0] == seps[1][0] && seps[1][0] in seps[1];
    } else {
      assert |words| == 1 && rest == [];
    }
  }

  /**
   * `split()` breaks exactly at runs of whitespace: the words laid out between
   * any whitespace separators, empty or not at the ends and non-empty between
   * words, come back in order.
   */
  lemma {:induction false} SplitJoinWith(words: seq<string>, seps: seq<string>)
    requires forall t :: t in words ==> Word(t)
    requires Separators(words, seps)
    ensures Split(JoinWith(words, seps)) == words
    decreases |words|
  {
    assert AllSpace(seps[0]);
    if words == [] {
      SplitFromSpaces(seps[0], []);
      assert seps[0] + [] == seps[0];
    } else {
      var first, rest := words[0], JoinWith(words[1..], seps[1..]);
      assert [first] + words[1..] == words;
      assert first in words;
      assert forall t :: t in words[1..] ==> t in words;
      SeparatorsTail(words, seps);
      SplitJoinWith(words[1..], seps[1..]);
      assert JoinWith(words, seps) == seps[0] + (first + rest);
      SplitFromSpaces(seps[0], first + rest);
      SplitFromWord(first, rest, []);
      assert [] + first == first;
      CloseToken(rest, first);
    }
  }

  /** A lower-case letter of the Latin-1 range, which `upper()` maps. */
  predicate IsLower(c: char) {
    var n := c as int;
    || 0x61 <= n <= 0x7A
    || n == 0xB5
    || (0xDF <= n <= 0xFF && n != 0xF7)
  }

  /** Python's upper-casing of one character, for the Latin-1 range. */
  function UpperChar(c: char): (r: string)
    ensures |r| >= 1
    ensures c != 'ß' ==> |r| == 1
    ensures forall d :: d in r ==> !IsLower(d)
    ensures !IsSpace(c) ==> NoSpace(r)
    ensures !IsLower(c) ==> r == [c]
  {
    var n := c as int;
    if 0x61 <= n <= 0x7A || (0xE0 <= n <= 0xFE && n != 0xF7) then [(n - 0x20) as char]
    else if n == 0xB5 then [0x39C as char]
    else if n == 0xDF then "SS"
    else if n == 0xFF then [0x178 as char]
    else [c]
  }

  /** Python's `s.upper()`, for the Latin-1 range; other characters are kept. */
  function Upper(s: string): (r: string)
    ensures forall d :: d in r ==> !IsLower(d)
    ensures NoSpace(s) ==> NoSpace(r)
    ensures |s| <= |r|
    ensures (forall c :: c in s ==> c != 'ß') ==>
              |r| == |s| && forall i {:trigger r[i]} :: 0 <= i < |s| ==> r[i] == UpperChar(s[i])[0]
  {
    if s == [] then []
    else
      assert forall c :: c in s[1..] ==> c in s;
      assert s[0] in s;
      var head, rest := UpperChar(s[0]), Upper(s[1..]);
      assert |head| == 1 ==> forall i :: 1 <= i < |s| ==> (head + rest)[i] == rest[i - 1];
      head + rest
  }

  /** Upper-casing keeps a string without lower-case letters as it is. */
  lemma UpperKeepsNonLower(s: string)
    requires forall c :: c in s ==> !IsLower(c)
    ensures Upper(s) == s
  {
    assert forall c :: c in s ==> c != 'ß';
    forall i | 0 <= i < |s| ensures Upper(s)[i] == s[i] {
      assert s[i] in s;
    }
  }

  /** Upper-casing twice is upper-casing once. */
  lemma UpperIdempotent(s: string)
    ensures Upper(Upper(s)) == Upper(s)
  {
    UpperKeepsNonLower(Upper(s));
  }

  /** Python's `s.split('\n')[0]`: everything before the first line break. */
  function FirstLine(s: string): (r: string)
    ensures '\n' !in r
    ensures r <= s
    ensures |r| < |s| ==> s[|r|] == '\n'
  {
    if s == [] || s[0] == '\n' then []
    else [s[0]] + FirstLine(s[1..])
  }

  /** Python's `s.rstrip()`: `s` without its trailing whitespace. */
  function RStrip(s: string): (r: string)
    ensures r <= s
    ensures r == [] || !IsSpace(r[|r| - 1])
    ensures forall i :: |r| <= i < |s| ==> IsSpace(s[i])
  {
    if s == [] || !IsSpace(s[|s| - 1]) then s
    else RStrip(s[..|s| - 1])
  }
}
