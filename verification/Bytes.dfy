/** Bytes and the searches over them that the parsers share. */
module Bytes {

  type Byte = c: char | c as int < 256 witness '\0'
  type Text = seq<Byte>

  /** isspace in the C locale. */
  predicate IsSpace(c: Byte) {
    c == ' ' || c == '\t' || c == '\n' || c == 11 as char || c == 12 as char || c == '\r'
  }

  /** Horizontal tab to carriage return, and the blank. */
  lemma SpacesAre(c: Byte)
    ensures IsSpace(c) <==> 9 <= c as int <= 13 || c as int == 32
  {
  }

  const CRLF: Text := ['\r', '\n']

  predicate IsCRLFAt(s: Text, i: int) {
    0 <= i && i + 1 < |s| && s[i] == '\r' && s[i + 1] == '\n'
  }

  ghost predicate HasCRLF(s: Text) {
    exists i :: IsCRLFAt(s, i)
  }

  /** findCRLF: the position of the first CRLF, or -1. */
  function FindCRLF(s: Text): (r: int)
    ensures -1 <= r
    ensures r >= 0 ==> IsCRLFAt(s, r)
    ensures forall i :: IsCRLFAt(s, i) ==> r >= 0 && r <= i
  {
    if |s| < 2 then -1
    else if s[0] == '\r' && s[1] == '\n' then 0
    else
      var r := FindCRLF(s[1..]);
      assert forall i :: IsCRLFAt(s, i) ==> IsCRLFAt(s[1..], i - 1);
      assert r >= 0 ==> IsCRLFAt(s, r + 1);
      if r < 0 then -1 else r + 1
  }

  /** std::find: the position of the first `c`, or the length. */
  function Find(s: Text, c: Byte): (r: nat)
    ensures r <= |s|
    ensures r < |s| ==> s[r] == c
    ensures forall i :: 0 <= i < r ==> s[i] != c
  {
    if s == [] || s[0] == c then 0 else 1 + Find(s[1..], c)
  }

  /** A CRLF that has arrived stays the first one, whatever arrives after it. */
  lemma FindCRLFStable(s: Text, more: Text)
    requires FindCRLF(s) >= 0
    ensures FindCRLF(s + more) == FindCRLF(s)
  {
    var r := FindCRLF(s);
    assert IsCRLFAt(s + more, r);
    var q := FindCRLF(s + more);
    assert IsCRLFAt(s, q);
  }

  /** A line without CRLF ends at the CRLF that follows it. */
  lemma FindCRLFAfter(line: Text, rest: Text)
    requires !HasCRLF(line)
    ensures FindCRLF(line + CRLF + rest) == |line|
  {
    var s := line + CRLF + rest;
    assert IsCRLFAt(s, |line|);
    var r := FindCRLF(s);
    if r < |line| {
      assert s[r + 1] == '\n';
      assert r + 1 < |line| by { assert s[|line|] == '\r'; }
      assert IsCRLFAt(line, r);
    }
  }

  lemma FindAt(s: Text, c: Byte, k: nat)
    requires k <= |s| && c !in s[..k] && (k < |s| ==> s[k] == c)
    ensures Find(s, c) == k
  {
    assert forall i :: 0 <= i < k ==> s[..k][i] != c;
  }

  /** A string turned into a StringPiece ends at its first NUL. */
  function CStr(w: Text): Text {
    w[..Find(w, '\0')]
  }

  predicate NulFree(w: Text) {
    '\0' !in w
  }

  lemma CStrIsIdentity(w: Text)
    ensures CStr(w) == w <==> NulFree(w)
    ensures CStr(w) <= w && NulFree(CStr(w)) && (|CStr(w)| < |w| ==> w[|CStr(w)|] == '\0')
  {
    var k := Find(w, '\0');
    if CStr(w) == w {
      assert k == |w|;
    }
    if NulFree(w) {
      FindAt(w, '\0', |w|);
    }
  }

  function Concat(ss: seq<Text>): Text {
    if ss == [] then [] else ss[0] + Concat(ss[1..])
  }
}
