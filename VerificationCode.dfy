/**
 * The verification code derived from the detected owner's name
 * (`extract_first_syllable`): the first three characters of every
 * whitespace-separated part of the name, upper-cased and concatenated.
 */
module VerificationCode {
  import opened SeqUtil
  import opened Text

  /** `get_syllable`: a part shorter than three characters is kept whole. */
  function Syllable(part: string): (r: string)
    ensures Word(part) ==> r != [] && NoSpace(r)
    ensures forall d :: d in r ==> !IsLower(d)
    ensures |r| <= 6
    ensures (forall c :: c in part ==> c != 'ß') ==> |r| == if |part| < 3 then |part| else 3
  {
    var prefix := if |part| < 3 then part else part[..3];
    assert forall c :: c in prefix ==> c in part;
    assert |Upper(prefix)| <= 6 by {
      UpperAtMostDouble(prefix);
    }
    Upper(prefix)
  }

  lemma {:induction false} UpperAtMostDouble(s: string)
    ensures |Upper(s)| <= 2 * |s|
  {
    if s != [] {
      UpperAtMostDouble(s[1..]);
    }
  }

  /** `''.join(get_syllable(part) for part in parts)`. */
  function Syllables(parts: seq<string>): (code: string)
    ensures forall d :: d in code ==> !IsLower(d)
    ensures (forall t :: t in parts ==> Word(t)) ==> NoSpace(code) && |parts| <= |code|
    ensures |code| <= 6 * |parts|
  {
    if parts == [] then []
    else
      assert forall t :: t in parts[1..] ==> t in parts;
      assert parts[0] in parts;
      Syllable(parts[0]) + Syllables(parts[1..])
  }

  /** `extract_first_syllable(name)`. */
  function ExtractFirstSyllable(name: string): (code: string)
    ensures NoSpace(code)
    ensures forall d :: d in code ==> !IsLower(d)
    ensures |Split(name)| <= |code| <= 6 * |Split(name)|
    ensures code == [] <==> RemoveSpaces(name) == []
  {
    var parts := Split(name);
    assert parts == [] <==> RemoveSpaces(name) == [] by {
      if parts != [] {
        assert parts[0] in parts;
        FlattenConcat([parts[0]], parts[1..]);
        assert [parts[0]] + parts[1..] == parts;
      }
    }
    Syllables(parts)
  }

  /** The code of a name written as words between whitespace separators is the concatenation of the words' syllables. */
  lemma CodeOfSeparatedName(words: seq<string>, seps: seq<string>)
    requires forall t :: t in words ==> Word(t)
    requires Separators(words, seps)
    ensures ExtractFirstSyllable(JoinWith(words, seps)) == Syllables(words)
  {
    SplitJoinWith(words, seps);
  }

  /** The syllable of a short, `ß`-free part is its upper-cased three-character prefix, character by character. */
  lemma SyllableChars(part: string, expected: string)
    requires forall c :: c in part ==> c != 'ß'
    requires |expected| == if |part| < 3 then |part| else 3
    requires forall i :: 0 <= i < |expected| ==> expected[i] == UpperChar(part[i])[0]
    ensures Syllable(part) == expected
  {
    var prefix := if |part| < 3 then part else part[..3];
    assert forall c :: c in prefix ==> c in part;
  }

  /** The code of a two-word name is the first word's syllable followed by the second's. */
  lemma CodeOfTwoWords(first: string, second: string, name: string)
    requires Word(first) && Word(second)
    requires name == first + [' '] + second
    ensures ExtractFirstSyllable(name) == Syllable(first) + Syllable(second)
  {
    var words, seps := [first, second], ["", " ", ""];
    assert words[1..] == [second] && seps[1..] == [" ", ""];
    assert JoinWith([], [""]) == "";
    assert JoinWith([second], [" ", ""]) == " " + second + "";
    assert JoinWith(words, seps) == "" + first + (" " + second + "");
    assert name == JoinWith(words, seps);
    assert forall t :: t in words ==> t == first || t == second;
    assert AllSpace(" ");
    CodeOfSeparatedName(words, seps);
    assert Syllables([second]) == Syllable(second) + Syllables([]);
  }

  lemma CodeOfAnaRuiz(name: string)
    requires name == "Ana Ruiz"
    ensures ExtractFirstSyllable(name) == "ANARUI"
  {
    SyllablesOfAnaRuiz();
    CodeOfTwoWords("Ana", "Ruiz", name);
    assert "ANA" + "RUI" == "ANARUI";
  }

  lemma SyllablesOfAnaRuiz()
    ensures Word("Ana") && Word("Ruiz")
    ensures Syllable("Ana") == "ANA" && Syllable("Ruiz") == "RUI"
  {
    SyllableOfAna();
    SyllableOfRuiz();
  }

  lemma SyllableOfAna()
    ensures Word("Ana") && Syllable("Ana") == "ANA"
  {
    SyllableChars("Ana", "ANA");
  }

  lemma SyllableOfRuiz()
    ensures Word("Ruiz") && Syllable("Ruiz") == "RUI"
  {
    SyllableChars("Ruiz", "RUI");
  }

  lemma CodeOfAlLu(name: string)
    requires name == "Al Lu"
    ensures ExtractFirstSyllable(name) == "ALLU"
  {
    SyllablesOfAlLu();
    CodeOfTwoWords("Al", "Lu", name);
    assert "AL" + "LU" == "ALLU";
  }

  lemma SyllablesOfAlLu()
    ensures Word("Al") && Word("Lu")
    ensures Syllable("Al") == "AL" && Syllable("Lu") == "LU"
  {
    SyllableOfAl();
    SyllableOfLu();
  }

  lemma SyllableOfAl()
    ensures Word("Al") && Syllable("Al") == "AL"
  {
    SyllableChars("Al", "AL");
  }

  lemma SyllableOfLu()
    ensures Word("Lu") && Syllable("Lu") == "LU"
  {
    SyllableChars("Lu", "LU");
  }
}
