/**
 * The length-prefixed frame hashed into a pairing token
 * (`packages/moderation/src/pairing.ts`). The keyed hash itself is a parameter.
 */
module Pairing {
  import opened Core
  import opened Calendar

  datatype Triple = Triple(reportId: string, matchId: string, subjectId: string)

  const PAIRING_TOKEN_VERSION := "rpt1"

  /** A number as a template literal renders it. */
  function Decimal(n: nat): (s: string)
    ensures s != ""
    ensures forall i :: 0 <= i < |s| ==> Digit(s[i])
  {
    if n < 10 then [('0' as int + n) as char]
    else Decimal(n / 10) + [('0' as int + n % 10) as char]
  }

  function FramePart(part: string): string {
    Decimal(|part|) + ":" + part
  }

  /** The framed parts joined by `|`. */
  function Framed(t: Triple): string {
    FramePart(t.reportId) + ("|" + (FramePart(t.matchId) + ("|" + FramePart(t.subjectId))))
  }

  function Material(t: Triple): string {
    PAIRING_TOKEN_VERSION + "|" + Framed(t)
  }

  /** `None` where the source throws. */
  function PairingToken(hmac: (string, string) -> string, secret: string, t: Triple): Option<string> {
    if secret == "" || t.reportId == "" || t.matchId == "" || t.subjectId == "" then None
    else Some(hmac(secret, Material(t)))
  }

  // ------------------------------------------------------------------ parsing --

  function Value(digits: string): nat
    requires forall i :: 0 <= i < |digits| ==> Digit(digits[i])
  {
    if digits == "" then 0
    else 10 * Value(digits[..|digits| - 1]) + DigitValue(digits[|digits| - 1])
  }

  function LeadingDigits(s: string): (n: nat)
    ensures n <= |s| && forall i :: 0 <= i < n ==> Digit(s[i])
    ensures n < |s| ==> !Digit(s[n])
  {
    if s == "" || !Digit(s[0]) then 0 else 1 + LeadingDigits(s[1..])
  }

  /** One part and what follows it. */
  function ParsePart(s: string): Option<(string, string)> {
    var n := LeadingDigits(s);
    if n == 0 || n == |s| || s[n] != ':' then None else
      var length, rest := Value(s[..n]), s[n + 1..];
      if length > |rest| then None else Some((rest[..length], rest[length..]))
  }

  function Parse(s: string): Option<Triple> {
    var a := ParsePart(s);
    if a == None || a.value.1 == "" || a.value.1[0] != '|' then None else
      var b := ParsePart(a.value.1[1..]);
      if b == None || b.value.1 == "" || b.value.1[0] != '|' then None else
        var c := ParsePart(b.value.1[1..]);
        if c == None || c.value.1 != "" then None else Some(Triple(a.value.0, b.value.0, c.value.0))
  }

  lemma {:induction false} DecimalValue(n: nat)
    ensures Value(Decimal(n)) == n
  {
    var s := Decimal(n);
    if n < 10 {
      assert s[..0] == "";
    } else {
      DecimalValue(n / 10);
      assert s[..|s| - 1] == Decimal(n / 10);
    }
  }

  lemma {:induction false} DigitsThenColon(digits: string, rest: string)
    requires forall i :: 0 <= i < |digits| ==> Digit(digits[i])
    ensures LeadingDigits(digits + ":" + rest) == |digits|
  {
    if digits == "" {
      assert digits + ":" + rest == ":" + rest;
    } else {
      assert (digits + ":" + rest)[1..] == digits[1..] + ":" + rest;
      DigitsThenColon(digits[1..], rest);
    }
  }

  lemma ParsePartOfFrame(part: string, tail: string)
    ensures ParsePart(FramePart(part) + tail) == Some((part, tail))
  {
    var digits, s := Decimal(|part|), FramePart(part) + tail;
    assert s == digits + ":" + (part + tail);
    DigitsThenColon(digits, part + tail);
    DecimalValue(|part|);
    assert s[..|digits|] == digits && s[|digits| + 1..] == part + tail;
    assert (part + tail)[..|part|] == part && (part + tail)[|part|..] == tail;
  }

  lemma ParseFrom(s: string, t: Triple, middle: string, last: string)
    requires ParsePart(s) == Some((t.reportId, "|" + middle)) && ParsePart(middle) == Some((t.matchId, "|" + last))
    requires ParsePart(last) == Some((t.subjectId, ""))
    ensures Parse(s) == Some(t)
  {
    assert ("|" + middle)[1..] == middle && ("|" + last)[1..] == last;
  }

  /** The frame parses back to the triple it came from, whatever characters the ids hold. */
  lemma FrameRoundTrip(t: Triple)
    ensures Parse(Framed(t)) == Some(t)
  {
    var last := FramePart(t.subjectId);
    var middle := FramePart(t.matchId) + ("|" + last);
    ParsePartOfFrame(t.reportId, "|" + middle);
    ParsePartOfFrame(t.matchId, "|" + last);
    ParsePartOfFrame(t.subjectId, "");
    assert last + "" == last;
    ParseFrom(Framed(t), t, middle, last);
  }

  /** Two triples feed the hash the same bytes only when they are the same triple. */
  lemma MaterialInjective(t: Triple, u: Triple)
    ensures Material(t) == Material(u) <==> t == u
  {
    if Material(t) == Material(u) {
      var prefix := PAIRING_TOKEN_VERSION + "|";
      assert Material(t)[|prefix|..] == Framed(t) && Material(u)[|prefix|..] == Framed(u);
      FrameRoundTrip(t);
      FrameRoundTrip(u);
    }
  }

  /** A token needs a secret and all three parts, and is the hash of the version and the frame under that secret. */
  lemma TokenIff(hmac: (string, string) -> string, secret: string, t: Triple)
    ensures PairingToken(hmac, secret, t)
         == if "" in [secret, t.reportId, t.matchId, t.subjectId] then None else Some(hmac(secret, "rpt1|" + Framed(t)))
  {
    assert Material(t) == "rpt1|" + Framed(t);
    var parts := [secret, t.reportId, t.matchId, t.subjectId];
    assert parts[0] == secret && parts[1] == t.reportId && parts[2] == t.matchId && parts[3] == t.subjectId;
  }

  /** With a hash that does not collide, a secret gives two triples one token exactly when they are one triple. */
  lemma TokensMatchIff(hmac: (string, string) -> string, secret: string, t: Triple, u: Triple)
    requires PairingToken(hmac, secret, t).Some? && PairingToken(hmac, secret, u).Some?
    requires hmac(secret, Material(t)) == hmac(secret, Material(u)) ==> Material(t) == Material(u)
    ensures PairingToken(hmac, secret, t) == PairingToken(hmac, secret, u) <==> t == u
  {
    MaterialInjective(t, u);
  }

  /** What the lengths are for: joined by the separator alone, two different triples are one text. */
  lemma UnframedJoinIsAmbiguous()
    ensures var t, u := Triple("a|b", "c", "d"), Triple("a", "b|c", "d");
            t != u && t.reportId + "|" + t.matchId + "|" + t.subjectId == u.reportId + "|" + u.matchId + "|" + u.subjectId
  {
  }
}
