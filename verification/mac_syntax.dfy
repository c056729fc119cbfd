/**
 The validator of the lookup pipeline: `parse` accepts exactly the strings
 made of six colon-separated pairs of hex digits (either case, anchored at both
 ends) and hands back the first eight characters, the OUI.

 Two descriptions of the accepted language are given and proved equal: the
 regular expression read group by group (`MatchesGroups`), and the positional
 shape (`HasShape`: a colon at every third position, a hex digit elsewhere).
 */
module MacSyntax {
  import opened Outcome

  /** Length of a MAC address in the accepted syntax: six pairs and five colons. */
  const MacLength := 17
  /** Length of the OUI: three pairs and two colons. */
  const OuiLength := 8

  /** The character class `[0-9a-fA-F]`. */
  predicate IsHexDigit(c: char) {
    ('0' <= c <= '9') || ('a' <= c <= 'f') || ('A' <= c <= 'F')
  }

  /** Position `i` of a colon-grouped string holds what it must: a colon after every pair, a hex digit otherwise. */
  predicate ShapeAt(s: string, i: int)
    requires 0 <= i < |s|
  {
    if i % 3 == 2 then s[i] == ':' else IsHexDigit(s[i])
  }

  /** `s` has length `n` and the colon-grouped shape at every position. */
  predicate HasShape(s: string, n: nat) {
    |s| == n && forall i :: 0 <= i < |s| ==> ShapeAt(s, i)
  }

  /** A full MAC address: `HH:HH:HH:HH:HH:HH`. */
  predicate IsMac(s: string) {
    HasShape(s, MacLength)
  }

  /** An OUI: `HH:HH:HH`. */
  predicate IsOui(s: string) {
    HasShape(s, OuiLength)
  }

  /** `s` starts with two hex digits. */
  predicate StartsWithPair(s: string) {
    |s| >= 2 && IsHexDigit(s[0]) && IsHexDigit(s[1])
  }

  /** The pattern `[0-9a-fA-F]{2}(:[0-9a-fA-F]{2}){n-1}` matched against the whole of `s`. */
  predicate MatchesGroups(s: string, n: nat)
    requires n >= 1
    decreases n
  {
    if n == 1 then |s| == 2 && StartsWithPair(s)
    else |s| >= 3 && StartsWithPair(s) && s[2] == ':' && MatchesGroups(s[3..], n - 1)
  }

  /** The anchored regular expression of the validator: six groups of two hex digits joined by colons. */
  predicate MatchesMacPattern(s: string) {
    MatchesGroups(s, 6)
  }

  /** The regular expression and the positional shape accept the same strings. */
  lemma {:induction false} GroupsIffShape(s: string, n: nat)
    requires n >= 1
    ensures MatchesGroups(s, n) <==> HasShape(s, 3 * n - 1)
    decreases n
  {
    if n > 1 && |s| >= 3 {
      var t := s[3..];
      GroupsIffShape(t, n - 1);
      forall i | 0 <= i < |t|
        ensures ShapeAt(t, i) <==> ShapeAt(s, i + 3)
      {
        assert t[i] == s[i + 3];
        assert (i + 3) % 3 == i % 3;
      }
      if HasShape(s, 3 * n - 1) {
        assert ShapeAt(s, 0) && ShapeAt(s, 1) && ShapeAt(s, 2);
        assert HasShape(t, 3 * (n - 1) - 1);
      }
      if MatchesGroups(s, n) {
        forall i | 0 <= i < |s|
          ensures ShapeAt(s, i)
        {
          if i >= 3 {
            assert ShapeAt(t, i - 3);
          }
        }
      }
    } else if n == 1 {
      if StartsWithPair(s) && |s| == 2 {
        assert ShapeAt(s, 0) && ShapeAt(s, 1);
      }
      if HasShape(s, 2) {
        assert ShapeAt(s, 0) && ShapeAt(s, 1);
      }
    }
  }

  /** The first eight characters of a MAC address are an OUI. */
  lemma OuiOfMac(s: string)
    requires IsMac(s)
    ensures IsOui(s[..OuiLength])
  {
    forall i | 0 <= i < OuiLength
      ensures ShapeAt(s[..OuiLength], i)
    {
      assert ShapeAt(s, i);
    }
  }

  /**
   `parse`: validate the address with the anchored regular expression and
   return its OUI, or fail naming the offending input.
   */
  function Parse(hw: string): (r: Reply)
    ensures r.Ok? <==> IsMac(hw)
    ensures r.Ok? ==> r.value == hw[..OuiLength] && IsOui(r.value)
    ensures !r.Ok? ==> r == Fail(InvalidMac(hw))
  {
    GroupsIffShape(hw, 6);
    if MatchesMacPattern(hw) then
      OuiOfMac(hw);
      Ok(hw[..OuiLength])
    else
      Fail(InvalidMac(hw))
  }

  /** The pattern is anchored: nothing may precede or follow a valid address. */
  lemma ParseIsAnchored(s: string, t: string)
    requires IsMac(s) && |t| > 0
    ensures Parse(s + t) == Fail(InvalidMac(s + t))
    ensures Parse(t + s) == Fail(InvalidMac(t + s))
  {
  }

  // Upper-casing, to state that the validator does not care about case.

  function UpperChar(c: char): char {
    if 'a' <= c <= 'z' then (c as int - 32) as char else c
  }

  /** `s` with every ASCII lower-case letter replaced by its upper-case form. */
  function Upper(s: string): string
  {
    seq(|s|, i requires 0 <= i < |s| => UpperChar(s[i]))
  }

  /** Validation is case-insensitive, and the OUI keeps the case the input had. */
  lemma ParseIgnoresCase(s: string)
    ensures Parse(s).Ok? <==> Parse(Upper(s)).Ok?
    ensures Parse(s).Ok? ==> Parse(Upper(s)) == Ok(Upper(Parse(s).value))
  {
    var u := Upper(s);
    forall i | 0 <= i < |s|
      ensures ShapeAt(s, i) <==> ShapeAt(u, i)
    {
      assert u[i] == UpperChar(s[i]);
    }
    if IsMac(s) {
      assert u[..OuiLength] == Upper(s[..OuiLength]);
    }
  }

  // Rendering six octets as an address, to state that every such rendering is accepted.

  /** A byte value. */
  predicate IsOctet(b: int) {
    0 <= b < 256
  }

  function HexChar(d: int, upper: bool): (c: char)
    requires 0 <= d < 16
    ensures IsHexDigit(c)
  {
    if d < 10 then ('0' as int + d) as char
    else if upper then ('A' as int + d - 10) as char
    else ('a' as int + d - 10) as char
  }

  /** The two hex digits of one octet. */
  function FormatOctet(b: int, upper: bool): (s: string)
    requires IsOctet(b)
    ensures StartsWithPair(s) && |s| == 2
  {
    [HexChar(b / 16, upper), HexChar(b % 16, upper)]
  }

  /** The octets rendered as colon-separated pairs of hex digits. */
  function FormatGroups(octets: seq<int>, upper: bool): (s: string)
    requires |octets| >= 1
    requires forall i :: 0 <= i < |octets| ==> IsOctet(octets[i])
    ensures |s| == 3 * |octets| - 1
    decreases |octets|
  {
    if |octets| == 1 then FormatOctet(octets[0], upper)
    else FormatOctet(octets[0], upper) + [':'] + FormatGroups(octets[1..], upper)
  }

  lemma {:induction false} FormatMatchesGroups(octets: seq<int>, upper: bool)
    requires |octets| >= 1
    requires forall i :: 0 <= i < |octets| ==> IsOctet(octets[i])
    ensures MatchesGroups(FormatGroups(octets, upper), |octets|)
    decreases |octets|
  {
    if |octets| > 1 {
      var rest := FormatGroups(octets[1..], upper);
      FormatMatchesGroups(octets[1..], upper);
      assert FormatGroups(octets, upper)[3..] == rest;
    }
  }

  lemma {:induction false} FormatPrefix(octets: seq<int>, upper: bool, k: nat)
    requires 1 <= k <= |octets|
    requires forall i :: 0 <= i < |octets| ==> IsOctet(octets[i])
    ensures FormatGroups(octets, upper)[..3 * k - 1] == FormatGroups(octets[..k], upper)
    decreases k
  {
    if k > 1 {
      FormatPrefix(octets[1..], upper, k - 1);
      assert octets[..k][1..] == octets[1..][..k - 1];
      assert octets[..k][0] == octets[0];
    }
  }

  /** Every six octets rendered in hex are accepted, and the OUI is the rendering of the first three. */
  lemma ParseFormatted(octets: seq<int>, upper: bool)
    requires |octets| == 6
    requires forall i :: 0 <= i < |octets| ==> IsOctet(octets[i])
    ensures Parse(FormatGroups(octets, upper)) == Ok(FormatGroups(octets[..3], upper))
  {
    FormatMatchesGroups(octets, upper);
    GroupsIffShape(FormatGroups(octets, upper), 6);
    FormatPrefix(octets, upper, 3);
  }
}
