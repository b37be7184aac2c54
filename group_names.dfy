/** The URL segment `group_name` of the group endpoints is turned into a group
    name before the exact-match lookup: every `-` becomes a space, then the
    string is capitalised the way Python's `str.capitalize` does it (first
    character upper case, all others lower case). Case mapping is ASCII. */
module GroupNames {

  /** ASCII upper case of one character; any other character is unchanged. */
  function ToUpper(c: char): char
  {
    if 'a' <= c <= 'z' then (c as int - 32) as char else c
  }

  /** ASCII lower case of one character; any other character is unchanged. */
  function ToLower(c: char): char
  {
    if 'A' <= c <= 'Z' then (c as int + 32) as char else c
  }

  /** The character `replace("-", " ")` puts in place of `c`. */
  function Dehyphen(c: char): char
  {
    if c == '-' then ' ' else c
  }

  /** `s.replace("-", " ")`. */
  function ReplaceHyphens(s: string): (r: string)
    ensures |r| == |s|
  {
    if s == [] then [] else [Dehyphen(s[0])] + ReplaceHyphens(s[1..])
  }

  /** Every `-` becomes a space and every other character stays where it was. */
  lemma {:induction false} ReplaceHyphensAt(s: string)
    ensures forall i :: 0 <= i < |s| ==> ReplaceHyphens(s)[i] == Dehyphen(s[i])
  {
    if s != [] {
      ReplaceHyphensAt(s[1..]);
      assert forall i :: 1 <= i < |s| ==> ReplaceHyphens(s)[i] == ReplaceHyphens(s[1..])[i - 1];
    }
  }

  /** `s.lower()`, restricted to ASCII. */
  function LowerAll(s: string): (r: string)
    ensures |r| == |s|
  {
    if s == [] then [] else [ToLower(s[0])] + LowerAll(s[1..])
  }

  /** Every character is replaced by its lower case and stays where it was. */
  lemma {:induction false} LowerAllAt(s: string)
    ensures forall i :: 0 <= i < |s| ==> LowerAll(s)[i] == ToLower(s[i])
  {
    if s != [] {
      LowerAllAt(s[1..]);
      assert forall i :: 1 <= i < |s| ==> LowerAll(s)[i] == LowerAll(s[1..])[i - 1];
    }
  }

  /** `s.capitalize()`: the first character in upper case, the rest in lower case. */
  function Capitalize(s: string): (r: string)
    ensures |r| == |s|
  {
    if s == [] then [] else [ToUpper(s[0])] + LowerAll(s[1..])
  }

  /** The name looked up for a URL segment: hyphens are replaced only when the
      segment holds one, then the result is capitalised. */
  function Normalize(segment: string): string
  {
    var spaced := if '-' in segment then ReplaceHyphens(segment) else segment;
    Capitalize(spaced)
  }

  /** Character by character, the normalised name is the upper-cased (first
      position) or lower-cased (other positions) character with `-` read as a
      space; in particular it holds no hyphen and has the segment's length. */
  lemma NormalizeAt(segment: string)
    ensures |Normalize(segment)| == |segment|
    ensures segment != [] ==> Normalize(segment)[0] == ToUpper(Dehyphen(segment[0]))
    ensures forall i :: 0 < i < |segment| ==> Normalize(segment)[i] == ToLower(Dehyphen(segment[i]))
    ensures '-' !in Normalize(segment)
  {
    var spaced := if '-' in segment then ReplaceHyphens(segment) else segment;
    ReplaceHyphensAt(segment);
    assert forall i :: 0 <= i < |segment| ==> spaced[i] == Dehyphen(segment[i]);
    if spaced != [] {
      LowerAllAt(spaced[1..]);
    }
    var r := Normalize(segment);
    forall i | 0 <= i < |r|
      ensures r[i] != '-'
    {
      if i == 0 {
        assert r[0] == ToUpper(spaced[0]);
      } else {
        assert r[i] == ToLower(spaced[i]);
      }
    }
  }

  /** The case- and hyphen-insensitive reading of one character. */
  function Fold(c: char): char
  {
    ToLower(Dehyphen(c))
  }

  /** Upper-casing two characters makes them equal exactly when lower-casing
      does: both identify a letter with its other case and nothing else. */
  lemma SameUpperIffSameLower(x: char, y: char)
    ensures ToUpper(x) == ToUpper(y) <==> ToLower(x) == ToLower(y)
  {
  }

  /** Two segments name the same group exactly when they have the same length
      and agree character by character once case and hyphens are ignored. */
  lemma NormalizeSameIff(a: string, b: string)
    ensures Normalize(a) == Normalize(b) <==>
      |a| == |b| && forall i :: 0 <= i < |a| ==> Fold(a[i]) == Fold(b[i])
  {
    NormalizeAt(a);
    NormalizeAt(b);
    if Normalize(a) == Normalize(b) {
      forall i | 0 <= i < |a|
        ensures Fold(a[i]) == Fold(b[i])
      {
        assert Normalize(a)[i] == Normalize(b)[i];
        if i == 0 {
          SameUpperIffSameLower(Dehyphen(a[0]), Dehyphen(b[0]));
        }
      }
    }
    if |a| == |b| && forall i :: 0 <= i < |a| ==> Fold(a[i]) == Fold(b[i]) {
      forall i | 0 <= i < |a|
        ensures Normalize(a)[i] == Normalize(b)[i]
      {
        assert Fold(a[i]) == Fold(b[i]);
        if i == 0 {
          SameUpperIffSameLower(Dehyphen(a[0]), Dehyphen(b[0]));
        }
      }
      assert Normalize(a) == Normalize(b);
    }
  }

  /** Normalising an already normalised name changes nothing. */
  lemma NormalizeIdempotent(segment: string)
    ensures Normalize(Normalize(segment)) == Normalize(segment)
  {
    var n := Normalize(segment);
    NormalizeAt(segment);
    NormalizeAt(n);
    forall i | 0 <= i < |n|
      ensures Normalize(n)[i] == n[i]
    {
    }
  }

  /** A stored group whose name is not already in normal form can never be
      reached through the group endpoints. */
  lemma OnlyNormalNamesReachable(segment: string, name: string)
    requires Normalize(segment) == name
    ensures Normalize(name) == name
  {
    NormalizeIdempotent(segment);
  }

  /** The URL form `delivery-crew` resolves to the stored name `Delivery crew`. */
  lemma HyphenatedExample(segment: string)
    requires segment == "delivery-crew"
    ensures Normalize(segment) == "Delivery crew"
  {
    NormalizeAt(segment);
    var r := Normalize(segment);
    assert r[0] == 'D' && r[1] == 'e' && r[2] == 'l' && r[3] == 'i' && r[4] == 'v';
    assert r[5] == 'e' && r[6] == 'r' && r[7] == 'y' && r[8] == ' ';
    assert r[9] == 'c' && r[10] == 'r' && r[11] == 'e' && r[12] == 'w';
  }

  /** `Delivery Crew` and `delivery-crew` resolve to the same stored name. */
  lemma SpacedExample(spaced: string, hyphenated: string)
    requires spaced == "Delivery Crew" && hyphenated == "delivery-crew"
    ensures Normalize(spaced) == Normalize(hyphenated)
  {
    NormalizeSameIff(spaced, hyphenated);
  }
}
