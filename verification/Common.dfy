// Shared value types and text predicates.
module Common {

  datatype Option<+T> = None | Some(value: T)

  // unicode.IsSpace, as strings.TrimSpace uses it.
  predicate IsSpace(c: char) {
    || c == ' ' || '\t' <= c <= '\r' || c == '\U{85}' || c == '\U{A0}' || c == '\U{1680}'
    || c == '\U{2028}' || c == '\U{2029}' || c == '\U{202F}' || c == '\U{205F}' || c == '\U{3000}'
    || '\U{2000}' <= c <= '\U{200A}'
  }

  // strings.TrimSpace(s) == ""
  predicate Blank(s: string) {
    forall i :: 0 <= i < |s| ==> IsSpace(s[i])
  }

  // strings.TrimSpace
  function TrimSpace(s: string): string {
    if s != "" && IsSpace(s[0]) then TrimSpace(s[1..])
    else if s != "" && IsSpace(s[|s| - 1]) then TrimSpace(s[..|s| - 1])
    else s
  }

  // The 25 characters of Unicode's White_Space property.
  const WHITE_SPACE := "\t\n\U{B}\U{C}\r \U{85}\U{A0}\U{1680}\U{2028}\U{2029}\U{202F}\U{205F}\U{3000}"
    + "\U{2000}\U{2001}\U{2002}\U{2003}\U{2004}\U{2005}\U{2006}\U{2007}\U{2008}\U{2009}\U{200A}"

  lemma SpacesAre(c: char)
    ensures IsSpace(c) <==> c in WHITE_SPACE
  {
    SpaceRuns(c);
  }

  lemma SpaceRuns(c: char)
    ensures '\t' <= c <= '\r' <==> c in {'\t', '\n', '\U{B}', '\U{C}', '\r'}
    ensures '\U{2000}' <= c <= '\U{200A}' <==>
              c in {'\U{2000}', '\U{2001}', '\U{2002}', '\U{2003}', '\U{2004}', '\U{2005}', '\U{2006}', '\U{2007}',
                    '\U{2008}', '\U{2009}', '\U{200A}'}
  {
  }

  // s from i to j, between spaces.
  predicate Trims(s: string, i: nat, j: nat) {
    && i <= j <= |s| && (forall k :: 0 <= k < i ==> IsSpace(s[k])) && (forall k :: j <= k < |s| ==> IsSpace(s[k]))
    && (i < j ==> !IsSpace(s[i]) && !IsSpace(s[j - 1]))
  }

  // Trimming takes spaces from both ends, and all of them.
  lemma {:induction false} TrimSpaceMeans(s: string) returns (i: nat, j: nat)
    ensures Trims(s, i, j) && TrimSpace(s) == s[i..j]
    decreases |s|
  {
    hide IsSpace, Trims;
    if s != "" && IsSpace(s[0]) {
      var a, b := TrimSpaceMeans(s[1..]);
      i, j := a + 1, b + 1;
      TrimsFront(s, a, b);
    } else if s != "" && IsSpace(s[|s| - 1]) {
      i, j := TrimSpaceMeans(s[..|s| - 1]);
      TrimsBack(s, i, j);
    } else {
      i, j := 0, |s|;
      TrimsNothing(s);
    }
  }

  lemma TrimsFront(s: string, i: nat, j: nat)
    requires s != "" && IsSpace(s[0]) && Trims(s[1..], i, j)
    ensures Trims(s, i + 1, j + 1) && s[1..][i..j] == s[i + 1..j + 1]
  {
    hide IsSpace;
    assert forall k :: 1 <= k < |s| ==> s[k] == s[1..][k - 1];
  }

  lemma TrimsBack(s: string, i: nat, j: nat)
    requires s != "" && IsSpace(s[|s| - 1]) && Trims(s[..|s| - 1], i, j)
    ensures Trims(s, i, j) && s[..|s| - 1][i..j] == s[i..j]
  {
    hide IsSpace;
  }

  lemma TrimsNothing(s: string)
    requires s != "" ==> !IsSpace(s[0]) && !IsSpace(s[|s| - 1])
    ensures Trims(s, 0, |s|) && s[0..|s|] == s
  {
  }

  predicate IsHexDigit(c: char) {
    '0' <= c <= '9' || 'a' <= c <= 'f' || 'A' <= c <= 'F'
  }

  // hex.DecodeString succeeds
  predicate IsHex(s: string) {
    |s| % 2 == 0 && forall i :: 0 <= i < |s| ==> IsHexDigit(s[i])
  }

  // Hexadecimal text is made of pairs of digits.
  lemma HexPairs(s: string)
    ensures IsHex(s) <==> s == "" || (|s| >= 2 && IsHexDigit(s[0]) && IsHexDigit(s[1]) && IsHex(s[2..]))
  {
    if |s| >= 2 {
      assert forall i :: 2 <= i < |s| ==> s[i] == s[2..][i - 2];
    }
  }
}
