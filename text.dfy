/**
 * The Python string operations the bot relies on, over Dafny strings:
 * str.lower, str.strip, str.split(), str.split(','), str.join, str.lstrip(chars),
 * str.startswith, the substring test `t in s`, and the ordering `<` on str.
 */
module Text {

  /** Python's str.isspace(); strip() and split() with no argument use exactly this set. */
  predicate IsSpace(c: char) {
    c == ' ' || ('\t' <= c <= '\r') || ('\U{1C}' <= c <= '\U{1F}') || c == '\U{85}' || c == '\U{A0}'
    || c == '\U{1680}' || ('\U{2000}' <= c <= '\U{200A}') || c == '\U{2028}' || c == '\U{2029}'
    || c == '\U{202F}' || c == '\U{205F}' || c == '\U{3000}'
  }

  predicate IsUpper(c: char) { 'A' <= c <= 'Z' }

  function LowerChar(c: char): char {
    if IsUpper(c) then (c as int + 32) as char else c
  }

  /** str.lower(), restricted to the ASCII letters. */
  function Lower(s: string): string {
    seq(|s|, i requires 0 <= i < |s| => LowerChar(s[i]))
  }

  predicate NoUpper(s: string) {
    forall c :: c in s ==> !IsUpper(c)
  }

  lemma LowerHasNoUpper(s: string)
    ensures NoUpper(Lower(s))
  {
    forall c | c in Lower(s) ensures !IsUpper(c) {
      var i :| 0 <= i < |s| && Lower(s)[i] == c;
    }
  }

  lemma LowerOfNoUpper(s: string)
    requires NoUpper(s)
    ensures Lower(s) == s
  {
    forall i | 0 <= i < |s| ensures Lower(s)[i] == s[i] {
      assert s[i] in s;
    }
  }

  lemma LowerAppend(a: string, b: string)
    ensures Lower(a + b) == Lower(a) + Lower(b)
  {
  }

  /** Leading whitespace removed (the left half of str.strip()). */
  function TrimStart(s: string): (r: string)
    ensures |r| <= |s| && r == s[|s| - |r|..]
    ensures r == [] || !IsSpace(r[0])
    decreases |s|
  {
    if |s| > 0 && IsSpace(s[0]) then TrimStart(s[1..]) else s
  }

  /** Trailing whitespace removed (the right half of str.strip()). */
  function TrimEnd(s: string): (r: string)
    ensures |r| <= |s| && r == s[..|r|]
    ensures r == [] || !IsSpace(r[|r| - 1])
    decreases |s|
  {
    if |s| > 0 && IsSpace(s[|s| - 1]) then TrimEnd(s[..|s| - 1]) else s
  }

  /** str.strip() with no argument. */
  function Strip(s: string): string {
    TrimEnd(TrimStart(s))
  }

  /** What strip() keeps is a piece of its input with no whitespace at either end. */
  lemma StripShape(s: string)
    ensures Strip(s) == [] || (!IsSpace(Strip(s)[0]) && !IsSpace(Strip(s)[|Strip(s)| - 1]))
    ensures forall c :: c in Strip(s) ==> c in s
  {
    StripEnds(s);
    StripChars(s);
  }

  lemma StripEnds(s: string)
    ensures Strip(s) == [] || (!IsSpace(Strip(s)[0]) && !IsSpace(Strip(s)[|Strip(s)| - 1]))
  {
    var t := TrimStart(s);
    var r := TrimEnd(t);
    if r != [] {
      assert r[0] == t[0];
    }
  }

  lemma StripChars(s: string)
    ensures forall c :: c in Strip(s) ==> c in s
  {
    var t := TrimStart(s);
    var r := TrimEnd(t);
    var lo := |s| - |t|;
    assert r == s[lo..lo + |r|];
    forall c | c in r ensures c in s {
      var i :| 0 <= i < |r| && r[i] == c;
      assert s[lo + i] == c;
    }
  }

  /** A string with no whitespace at its ends is left alone by strip(). */
  lemma StripOfStripped(s: string)
    requires s == [] || (!IsSpace(s[0]) && !IsSpace(s[|s| - 1]))
    ensures Strip(s) == s
  {
  }

  /** str.lstrip(chars): every leading character in the set goes, not a prefix. */
  function LStripChars(s: string, chars: set<char>): (r: string)
    ensures |r| <= |s| && r == s[|s| - |r|..]
    ensures r == [] || r[0] !in chars
    ensures forall i :: 0 <= i < |s| - |r| ==> s[i] in chars
    decreases |s|
  {
    if |s| > 0 && s[0] in chars then LStripChars(s[1..], chars) else s
  }

  predicate StartsWith(s: string, prefix: string) {
    |prefix| <= |s| && s[..|prefix|] == prefix
  }

  /** Python's substring test `t in s`. */
  predicate Contains(s: string, t: string)
    decreases |s|
  {
    StartsWith(s, t) || (|s| > 0 && Contains(s[1..], t))
  }

  /** str.split(sep) for a one-character separator: always at least one piece, none holding sep. */
  function SplitOn(s: string, sep: char): (r: seq<string>)
    ensures |r| >= 1
    ensures forall i :: 0 <= i < |r| ==> sep !in r[i]
    decreases |s|
  {
    if |s| == 0 then [""]
    else
      var rest := SplitOn(s[1..], sep);
      if s[0] == sep then [""] + rest else [[s[0]] + rest[0]] + rest[1..]
  }

  /** The pieces of a split are made of the characters of what was split. */
  lemma {:induction false} SplitOnChars(s: string, sep: char)
    ensures forall i, c :: 0 <= i < |SplitOn(s, sep)| && c in SplitOn(s, sep)[i] ==> c in s
    decreases |s|
  {
    if |s| > 0 {
      SplitOnChars(s[1..], sep);
      var rest := SplitOn(s[1..], sep);
      forall i, c | 0 <= i < |SplitOn(s, sep)| && c in SplitOn(s, sep)[i] ensures c in s {
        assert s == [s[0]] + s[1..];
        if s[0] != sep && i == 0 {
          assert c == s[0] || c in rest[0];
        } else if s[0] != sep {
          assert SplitOn(s, sep)[i] == rest[i];
        } else if i > 0 {
          assert SplitOn(s, sep)[i] == rest[i - 1];
        }
      }
    }
  }

  /** The longest prefix of s without whitespace. */
  function TakeWord(s: string): (w: string)
    ensures |w| <= |s| && w == s[..|w|]
    ensures forall c :: c in w ==> !IsSpace(c)
    ensures |s| > 0 && !IsSpace(s[0]) ==> |w| >= 1
    decreases |s|
  {
    if |s| == 0 || IsSpace(s[0]) then [] else [s[0]] + TakeWord(s[1..])
  }

  /** A token of str.split(): nonempty, no whitespace. */
  predicate IsWord(w: string) {
    w != [] && forall c :: c in w ==> !IsSpace(c)
  }

  /** str.split() with no argument: the maximal runs of non-whitespace. */
  function Words(s: string): seq<string>
    decreases |s|
  {
    var t := TrimStart(s);
    if t == [] then []
    else
      var w := TakeWord(t);
      [w] + Words(t[|w|..])
  }

  /** One step of str.split(): the first token is a word, and the rest is the split of what follows it. */
  lemma WordsStep(s: string)
    requires TrimStart(s) != []
    ensures IsWord(TakeWord(TrimStart(s)))
    ensures Words(s) == [TakeWord(TrimStart(s))] + Words(TrimStart(s)[|TakeWord(TrimStart(s))|..])
  {
  }

  /** Every token of str.split() is nonempty and free of whitespace. */
  lemma {:induction false} WordsAreWords(s: string)
    ensures forall i :: 0 <= i < |Words(s)| ==> IsWord(Words(s)[i])
    decreases |s|
  {
    var t := TrimStart(s);
    if t != [] {
      var w := TakeWord(t);
      var rest := Words(t[|w|..]);
      WordsStep(s);
      WordsAreWords(t[|w|..]);
      forall i | 0 <= i < |Words(s)| ensures IsWord(Words(s)[i]) {
        if i > 0 {
          assert Words(s)[i] == rest[i - 1];
        }
      }
    }
  }

  /** sep.join(xs). */
  function Join(xs: seq<string>, sep: string): string
    decreases |xs|
  {
    if |xs| == 0 then ""
    else if |xs| == 1 then xs[0]
    else xs[0] + sep + Join(xs[1..], sep)
  }

  /** Python's a < b on str: lexicographic by code point, a proper prefix first. */
  predicate Below(a: string, b: string)
    decreases |a|
  {
    if |a| == 0 then |b| > 0
    else |b| > 0 && (a[0] < b[0] || (a[0] == b[0] && Below(a[1..], b[1..])))
  }

  lemma BelowIrreflexive(a: string)
    ensures !Below(a, a)
    decreases |a|
  {
    if |a| > 0 { BelowIrreflexive(a[1..]); }
  }

  lemma BelowTransitive(a: string, b: string, c: string)
    requires Below(a, b) && Below(b, c)
    ensures Below(a, c)
    decreases |a|
  {
    if |a| > 0 && a[0] == b[0] && b[0] == c[0] {
      BelowTransitive(a[1..], b[1..], c[1..]);
    }
  }

  lemma BelowTotal(a: string, b: string)
    requires a != b
    ensures Below(a, b) || Below(b, a)
    decreases |a|
  {
    if |a| > 0 && |b| > 0 && a[0] == b[0] {
      BelowTotal(a[1..], b[1..]);
    }
  }

  lemma BelowAsymmetric(a: string, b: string)
    requires Below(a, b)
    ensures !Below(b, a)
  {
    if Below(b, a) {
      BelowTransitive(a, b, a);
      BelowIrreflexive(a);
    }
  }
}
