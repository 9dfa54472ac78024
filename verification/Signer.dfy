/** The webhook signature: what is signed, the header that carries it, and the receiver's check. */
module Signer {
  import opened Text
  import opened Numerals

  /** HMAC-SHA256 under a secret, left uninterpreted; a character of a material stands for one byte. */
  type Tag = (string, string) -> seq<Byte>

  const SECOND := 1_000_000_000

  /** Seconds since the epoch, rounded down. */
  function Unix(at: int): int {
    at / SECOND
  }

  // ---- Signing ----

  /** Stamp, delivery id and event, each ended by a newline, then the body. */
  function Material(stamp: string, id: int, event: string, body: string): string {
    stamp + "\n" + FormatInt(id) + "\n" + event + "\n" + body
  }

  /** The loop that feeds the fields to the hash. */
  method Feed(stamp: string, id: int, event: string, body: string) returns (fed: string)
    ensures fed == Material(stamp, id, event, body)
  {
    var fields := [stamp, FormatInt(id), event];
    fed := "";
    for i := 0 to |fields|
      invariant i == 0 ==> fed == ""
      invariant i == 1 ==> fed == stamp + "\n"
      invariant i == 2 ==> fed == stamp + "\n" + FormatInt(id) + "\n"
      invariant i == 3 ==> fed == stamp + "\n" + FormatInt(id) + "\n" + event + "\n"
    {
      fed := fed + fields[i] + "\n";
    }
    fed := fed + body;
  }

  function Header(stamp: string, mac: seq<Byte>): string {
    "t=" + stamp + ",v1=" + HexEncode(mac)
  }

  function Sign(tag: Tag, secret: string, at: int, id: int, event: string, body: string): string {
    var stamp := FormatInt(Unix(at));
    Header(stamp, tag(secret, Material(stamp, id, event, body)))
  }

  // ---- Reading the header ----

  /** `strings.Split` on commas. */
  function Split(s: string): (r: seq<string>)
    ensures r != []
  {
    if s == "" then [""]
    else
      var rest := Split(s[1..]);
      if s[0] == ',' then [""] + rest else [[s[0]] + rest[0]] + rest[1..]
  }

  /** `strings.Cut` at the first equals sign. */
  function CutEquals(s: string): Option<(string, string)> {
    if s == "" then None
    else if s[0] == '=' then Some(("", s[1..]))
    else
      match CutEquals(s[1..])
      case Some((k, v)) => Some(([s[0]] + k, v))
      case None => None
  }

  datatype Fields = Fields(stamp: string, rawMac: string)

  function Collect(f: Fields, part: string): Fields {
    match CutEquals(Trim(part))
    case None => f
    case Some((k, v)) => if k == "t" then f.(stamp := v) else if k == "v1" then f.(rawMac := v) else f
  }

  function CollectAll(parts: seq<string>): Fields {
    if parts == [] then Fields("", "") else Collect(CollectAll(parts[..|parts| - 1]), parts[|parts| - 1])
  }

  datatype Parsed = Parsed(stamp: string, seconds: int, mac: seq<Byte>) | Malformed

  function Parse(header: string): Parsed {
    var f := CollectAll(Split(header));
    if f.stamp == "" || f.rawMac == "" then Malformed
    else
      match (ParseInt(f.stamp), HexDecode(f.rawMac))
      case (Some(n), Some(mac)) => Parsed(f.stamp, n, mac)
      case _ => Malformed
  }

  /** The loop over the parts. */
  method ParseSignature(header: string) returns (r: Parsed)
    ensures r == Parse(header)
  {
    var parts := Split(header);
    var f := Fields("", "");
    for i := 0 to |parts|
      invariant f == CollectAll(parts[..i])
    {
      assert parts[..i + 1][..i] == parts[..i];
      var kv := CutEquals(Trim(parts[i]));
      if kv.Some? {
        if kv.value.0 == "t" {
          f := f.(stamp := kv.value.1);
        } else if kv.value.0 == "v1" {
          f := f.(rawMac := kv.value.1);
        }
      }
    }
    assert parts[..|parts|] == parts;
    if f.stamp == "" || f.rawMac == "" {
      return Malformed;
    }
    var n := ParseInt(f.stamp);
    if n.None? {
      return Malformed;
    }
    var mac := HexDecode(f.rawMac);
    if mac.None? {
      return Malformed;
    }
    r := Parsed(f.stamp, n.value, mac.value);
  }

  // ---- Parsing undoes signing ----

  lemma {:induction false} SplitWhole(s: string)
    requires Lacks(s, ',')
    ensures Split(s) == [s]
  {
    if s != "" {
      SplitWhole(s[1..]);
      assert s == [s[0]] + s[1..];
    }
  }

  lemma {:induction false} SplitFirst(a: string, b: string)
    requires Lacks(a, ',')
    ensures Split(a + "," + b) == [a] + Split(b)
  {
    var s := a + "," + b;
    if a == "" {
      assert s[1..] == b;
    } else {
      assert s[1..] == a[1..] + "," + b;
      SplitFirst(a[1..], b);
      assert a == [a[0]] + a[1..];
      assert ([a[1..]] + Split(b))[1..] == Split(b);
    }
  }

  lemma CutStamp(v: string)
    ensures CutEquals("t=" + v) == Some(("t", v))
  {
    var s := "t=" + v;
    assert s[1..] == "=" + v;
    assert s[1..][1..] == v;
    assert ['t'] + "" == "t";
  }

  lemma CutMac(v: string)
    ensures CutEquals("v1=" + v) == Some(("v1", v))
  {
    var s := "v1=" + v;
    assert s[1..] == "1=" + v;
    assert s[1..][1..] == "=" + v;
    assert s[1..][1..][1..] == v;
    assert CutEquals("1=" + v) == Some((['1'] + "", v));
    assert ['v'] + (['1'] + "") == "v1";
  }

  lemma NumeralsAreTrimmed(key: string, s: string)
    requires key in {"t=", "v1="} && s != "" && !IsSpace(s[|s| - 1])
    ensures Trim(key + s) == key + s
  {
  }

  lemma HexIsPlain(mac: seq<Byte>)
    ensures Lacks(HexEncode(mac), ',')
    ensures mac != [] ==> HexEncode(mac) != "" && !IsSpace(HexEncode(mac)[|HexEncode(mac)| - 1])
  {
  }

  lemma HeaderParts(stamp: string, mac: seq<Byte>)
    requires OnlyNumeral(stamp)
    ensures Split(Header(stamp, mac)) == ["t=" + stamp, "v1=" + HexEncode(mac)]
  {
    HexIsPlain(mac);
    var a, b := "t=" + stamp, "v1=" + HexEncode(mac);
    SplitFirst(a, b);
    SplitWhole(b);
    assert Header(stamp, mac) == a + "," + b;
  }

  /** A header built from a readable stamp and any non-empty MAC reads back as exactly those. */
  lemma ParseUndoesHeader(stamp: string, mac: seq<Byte>)
    requires ParseInt(stamp).Some? && mac != []
    ensures Parse(Header(stamp, mac)) == Parsed(stamp, ParseInt(stamp).value, mac)
  {
    ParsedIsNumeral(stamp);
    HeaderParts(stamp, mac);
    HexIsPlain(mac);
    HexRoundTrip(mac);
    var a, b := "t=" + stamp, "v1=" + HexEncode(mac);
    NumeralsAreTrimmed("t=", stamp);
    NumeralsAreTrimmed("v1=", HexEncode(mac));
    CutStamp(stamp);
    CutMac(HexEncode(mac));
    assert [a, b][..1] == [a] && [a][..0] == [];
    assert CollectAll([a]) == Fields(stamp, "");
    assert CollectAll([a, b]) == Fields(stamp, HexEncode(mac));
  }

  /** Reading a signed header gives the exact stamp, time and MAC that were signed. */
  lemma ParseUndoesSign(tag: Tag, secret: string, at: int, id: int, event: string, body: string)
    requires IsInt64(Unix(at))
    requires tag(secret, Material(FormatInt(Unix(at)), id, event, body)) != []
    ensures Parse(Sign(tag, secret, at, id, event, body))
         == Parsed(FormatInt(Unix(at)), Unix(at), tag(secret, Material(FormatInt(Unix(at)), id, event, body)))
  {
    var stamp := FormatInt(Unix(at));
    IntRoundTrip(Unix(at));
    ParseUndoesHeader(stamp, tag(secret, Material(stamp, id, event, body)));
  }

  // ---- The signed material ----

  /** A field that ends at the first newline can be told from what follows. */
  lemma {:induction false} FieldsSeparate(a: string, x: string, b: string, y: string)
    requires Lacks(a, '\n') && Lacks(b, '\n') && a + "\n" + x == b + "\n" + y
    ensures a == b && x == y
  {
    var s, t := a + "\n" + x, b + "\n" + y;
    if a == "" || b == "" {
      assert s[0] == t[0];
      assert a == "" ==> s[0] == '\n';
      assert b == "" ==> t[0] == '\n';
      assert s[1..] == t[1..];
      assert a == "" && b == "" ==> s[1..] == x && t[1..] == y;
    } else {
      assert s[1..] == a[1..] + "\n" + x && t[1..] == b[1..] + "\n" + y;
      FieldsSeparate(a[1..], x, b[1..], y);
      assert s[0] == a[0] && t[0] == b[0];
      assert a == [a[0]] + a[1..] && b == [b[0]] + b[1..];
    }
  }

  lemma NumeralFree(s: string)
    requires OnlyNumeral(s)
    ensures Lacks(s, '\n')
  {
  }

  /** With events free of newlines the material determines every field. */
  lemma MaterialInjective(
    stamp1: string, id1: int, event1: string, body1: string, stamp2: string, id2: int, event2: string, body2: string)
    requires OnlyNumeral(stamp1) && OnlyNumeral(stamp2) && IsInt64(id1) && IsInt64(id2)
    requires Lacks(event1, '\n') && Lacks(event2, '\n')
    requires Material(stamp1, id1, event1, body1) == Material(stamp2, id2, event2, body2)
    ensures stamp1 == stamp2 && id1 == id2 && event1 == event2 && body1 == body2
  {
    var d1, d2 := FormatInt(id1), FormatInt(id2);
    NumeralFree(stamp1);
    NumeralFree(stamp2);
    FormatIsNumeral(id1);
    FormatIsNumeral(id2);
    NumeralFree(d1);
    NumeralFree(d2);
    var e1, e2 := event1 + "\n" + body1, event2 + "\n" + body2;
    assert Material(stamp1, id1, event1, body1) == stamp1 + "\n" + (d1 + "\n" + e1);
    assert Material(stamp2, id2, event2, body2) == stamp2 + "\n" + (d2 + "\n" + e2);
    FieldsSeparate(stamp1, d1 + "\n" + e1, stamp2, d2 + "\n" + e2);
    FieldsSeparate(d1, e1, d2, e2);
    FieldsSeparate(event1, body1, event2, body2);
    FormatInjective(id1, id2);
  }

  /** An event with a newline always shares its material with a shorter event and a longer body. */
  lemma NewlineCollides(stamp: string, id: int, event: string, body: string, i: nat)
    requires i < |event| && event[i] == '\n'
    ensures event[..i] != event
    ensures Material(stamp, id, event, body) == Material(stamp, id, event[..i], event[i + 1..] + "\n" + body)
  {
  }

  // ---- Verifying ----

  datatype Verdict = Accepted | MalformedSignature | StaleSignature | BadSignature

  /** The offset between the epoch and the year one, from which times are counted internally. */
  const UNIX_TO_INTERNAL := 62_135_596_800

  /** The moment a stamp denotes: close to the end of the 64-bit range the internal count wraps. */
  function FromUnix(seconds: int): int {
    (if seconds + UNIX_TO_INTERNAL > INT64_MAX then seconds - 2 * (INT64_MAX + 1) else seconds) * SECOND
  }

  /** The difference of two times, which saturates. */
  function Sub(a: int, b: int): int {
    if a - b > INT64_MAX then INT64_MAX else if a - b < INT64_MIN then INT64_MIN else a - b
  }

  /** Two's-complement negation: the least duration is its own. */
  function Negated(d: int): int {
    if d == INT64_MIN then INT64_MIN else -d
  }

  function Verify(
    tag: Tag, secret: string, header: string, id: int, event: string, body: string, now: int, tolerance: int): Verdict
  {
    match Parse(header)
    case Malformed => MalformedSignature
    case Parsed(stamp, seconds, mac) =>
      var skew := Sub(now, FromUnix(seconds));
      if skew > tolerance || skew < Negated(tolerance) then StaleSignature
      else if mac != tag(secret, Material(stamp, id, event, body)) then BadSignature
      else Accepted
  }

  /** No two materials share a MAC, and a MAC is never empty. */
  ghost predicate Ideal(tag: Tag) {
    && (forall k, m, n :: tag(k, m) == tag(k, n) ==> m == n)
    && (forall k, m :: tag(k, m) != [])
  }

  /** Close enough, early or late. At the two ends of the range saturation makes the test one-sided. */
  ghost predicate Within(now: int, at: int, tolerance: int) {
    if tolerance == INT64_MAX then now - at > INT64_MIN
    else if tolerance == INT64_MIN then now - at <= INT64_MIN
    else -tolerance <= now - at <= tolerance
  }

  /** A header for a readable stamp is accepted exactly when its MAC signs what was received, in time. */
  lemma VerifyHeader(
    tag: Tag, secret: string, stamp: string, signed: string,
    id: int, event: string, body: string, now: int, tolerance: int)
    requires Ideal(tag) && ParseInt(stamp).Some? && IsInt64(tolerance)
    ensures Verify(tag, secret, Header(stamp, tag(secret, signed)), id, event, body, now, tolerance).Accepted? <==>
              signed == Material(stamp, id, event, body) && Within(now, FromUnix(ParseInt(stamp).value), tolerance)
  {
    assert tag(secret, signed) != [];
    ParseUndoesHeader(stamp, tag(secret, signed));
  }

  /** A signed header is accepted exactly when id, event and body match and the clock is close enough, early or late. */
  lemma VerifyAcceptsExactly(
    tag: Tag, secret: string, at: int, id: int, event: string, body: string,
    id': int, event': string, body': string, now: int, tolerance: int)
    requires Ideal(tag) && IsInt64(Unix(at)) && IsInt64(id) && IsInt64(id')
    requires Lacks(event, '\n') && Lacks(event', '\n') && IsInt64(tolerance)
    ensures var header := Sign(tag, secret, at, id, event, body);
            Verify(tag, secret, header, id', event', body', now, tolerance).Accepted? <==>
              id' == id && event' == event && body' == body && Within(now, FromUnix(Unix(at)), tolerance)
  {
    var stamp := FormatInt(Unix(at));
    IntRoundTrip(Unix(at));
    FormatIsNumeral(Unix(at));
    VerifyHeader(tag, secret, stamp, Material(stamp, id, event, body), id', event', body', now, tolerance);
    if Material(stamp, id, event, body) == Material(stamp, id', event', body') {
      MaterialInjective(stamp, id, event, body, stamp, id', event', body');
    }
  }

  /** Writing the same time differently in a signed header makes it fail. */
  lemma RespelledStampFails(
    tag: Tag, secret: string, at: int, id: int, event: string, body: string, stamp: string, now: int, tolerance: int)
    requires Ideal(tag) && IsInt64(Unix(at)) && IsInt64(id) && Lacks(event, '\n') && IsInt64(tolerance)
    requires ParseInt(stamp) == Some(Unix(at)) && stamp != FormatInt(Unix(at))
    ensures var signed := Material(FormatInt(Unix(at)), id, event, body);
            !Verify(tag, secret, Header(stamp, tag(secret, signed)), id, event, body, now, tolerance).Accepted?
  {
    var signed := Material(FormatInt(Unix(at)), id, event, body);
    VerifyHeader(tag, secret, stamp, signed, id, event, body, now, tolerance);
    ParsedIsNumeral(stamp);
    FormatIsNumeral(Unix(at));
    if signed == Material(stamp, id, event, body) {
      MaterialInjective(FormatInt(Unix(at)), id, event, body, stamp, id, event, body);
    }
  }
}
