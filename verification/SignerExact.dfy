/** The receiver's check on every header there is, read off the header's text. */
module SignerExact {
  import opened Text
  import opened Numerals
  import opened Signer

  // ---- The parts of a header ----

  function Join(parts: seq<string>): string
    requires parts != []
  {
    if |parts| == 1 then parts[0] else parts[0] + "," + Join(parts[1..])
  }

  /** `parts` is the header cut at every comma. */
  ghost predicate Cuts(header: string, parts: seq<string>) {
    parts != [] && (forall i :: 0 <= i < |parts| ==> Lacks(parts[i], ',')) && header == Join(parts)
  }

  lemma PrefixFirst(c: char, rest: seq<string>)
    requires rest != []
    ensures Join([[c] + rest[0]] + rest[1..]) == [c] + Join(rest)
  {
    var parts := [[c] + rest[0]] + rest[1..];
    assert parts[1..] == rest[1..];
    if |rest| > 1 {
      assert ([c] + rest[0]) + "," + Join(rest[1..]) == [c] + (rest[0] + "," + Join(rest[1..]));
    }
  }

  lemma {:induction false} SplitCuts(s: string)
    ensures Cuts(s, Split(s))
  {
    if s != "" {
      SplitCuts(s[1..]);
      var parts, rest := Split(s), Split(s[1..]);
      assert s == [s[0]] + s[1..];
      if s[0] == ',' {
        assert parts[1..] == rest;
        assert Join(parts) == "" + "," + Join(rest);
      } else {
        PrefixFirst(s[0], rest);
        assert forall i :: 1 <= i < |parts| ==> parts[i] == rest[i];
      }
    }
  }

  lemma {:induction false} OnlyCut(s: string, parts: seq<string>)
    requires Cuts(s, parts)
    ensures Split(s) == parts
    decreases |parts|
  {
    if |parts| == 1 {
      SplitWhole(parts[0]);
    } else {
      SplitFirst(parts[0], Join(parts[1..]));
      OnlyCut(Join(parts[1..]), parts[1..]);
    }
  }

  // ---- One field of it ----

  /** No part, with the white space around it taken off, starts with the field's name and an equals sign. */
  ghost predicate NoField(parts: seq<string>, name: string) {
    forall i :: 0 <= i < |parts| ==> !(name + "=" <= Trim(parts[i]))
  }

  /** Part `i` gives the field, and no later part does. */
  ghost predicate LastAt(parts: seq<string>, name: string, value: string, i: nat) {
    i < |parts| && Trim(parts[i]) == name + "=" + value && NoField(parts[i + 1..], name)
  }

  /** What the last part that gives the field has after the equals sign; nothing when no part does. */
  ghost predicate LastField(parts: seq<string>, name: string, value: string) {
    (value == "" && NoField(parts, name)) || exists i :: LastAt(parts, name, value, i)
  }

  /** A name without an equals sign is what a part is cut to exactly when it stands before the first one. */
  lemma {:induction false} CutExactly(s: string, name: string)
    requires Lacks(name, '=')
    ensures name + "=" <= s <==> CutEquals(s).Some? && CutEquals(s).value.0 == name
    ensures name + "=" <= s ==> s == name + "=" + CutEquals(s).value.1
  {
    if s != "" {
      if name == "" || s[0] == '=' {
        assert "" + "=" <= s <==> s[0] == '=';
        assert s == [s[0]] + s[1..];
        assert name != "" ==> (name + "=")[0] == name[0];
      } else {
        CutExactly(s[1..], name[1..]);
        assert name == [name[0]] + name[1..] && s == [s[0]] + s[1..];
        assert name + "=" <= s <==> name[0] == s[0] && name[1..] + "=" <= s[1..];
      }
    }
  }

  /** A last part without the field changes nothing. */
  lemma NoFieldLast(parts: seq<string>, name: string, value: string, i: nat)
    requires i + 1 < |parts| && !(name + "=" <= Trim(parts[|parts| - 1]))
    ensures LastAt(parts, name, value, i) <==> LastAt(parts[..|parts| - 1], name, value, i)
  {
    var a, b := parts[i + 1..], parts[..|parts| - 1][i + 1..];
    assert |a| == |b| + 1 && a[|b|] == parts[|parts| - 1];
    assert forall j :: 0 <= j < |b| ==> a[j] == b[j];
  }

  lemma FieldOfLast(parts: seq<string>, name: string, value: string)
    requires parts != []
    ensures var n := |parts| - 1;
            LastField(parts, name, value) <==>
              if name + "=" <= Trim(parts[n]) then Trim(parts[n]) == name + "=" + value
              else LastField(parts[..n], name, value)
  {
    var n := |parts| - 1;
    if name + "=" <= Trim(parts[n]) {
      if Trim(parts[n]) == name + "=" + value {
        assert LastAt(parts, name, value, n);
      }
      forall i: nat | i < n ensures !LastAt(parts, name, value, i) {
        assert parts[i + 1..][n - i - 1] == parts[n];
      }
    } else {
      forall i: nat | i < n ensures LastAt(parts, name, value, i) <==> LastAt(parts[..n], name, value, i) {
        NoFieldLast(parts, name, value, i);
      }
      assert !LastAt(parts, name, value, n);
      assert NoField(parts, name) <==> NoField(parts[..n], name) by {
        assert forall i :: 0 <= i < n ==> parts[..n][i] == parts[i];
      }
    }
  }

  lemma SameValue(name: string, a: string, b: string)
    ensures name + "=" + a == name + "=" + b ==> a == b
  {
    assert (name + "=" + a)[|name| + 1..] == a && (name + "=" + b)[|name| + 1..] == b;
  }

  lemma {:induction false} CollectsLast(parts: seq<string>, stamp: string, rawMac: string)
    ensures LastField(parts, "t", stamp) <==> CollectAll(parts).stamp == stamp
    ensures LastField(parts, "v1", rawMac) <==> CollectAll(parts).rawMac == rawMac
  {
    if parts != [] {
      var n := |parts| - 1;
      CollectsLast(parts[..n], stamp, rawMac);
      FieldOfLast(parts, "t", stamp);
      FieldOfLast(parts, "v1", rawMac);
      CutExactly(Trim(parts[n]), "t");
      CutExactly(Trim(parts[n]), "v1");
      SameValue("t", stamp, CollectAll(parts).stamp);
      SameValue("v1", rawMac, CollectAll(parts).rawMac);
    }
  }

  // ---- What a header says ----

  /** The stamp and the MAC's digits that a header carries, each empty when the header has none. */
  ghost predicate Carries(header: string, stamp: string, rawMac: string) {
    exists parts :: Cuts(header, parts) && LastField(parts, "t", stamp) && LastField(parts, "v1", rawMac)
  }

  lemma CarriesExactly(header: string, stamp: string, rawMac: string)
    ensures Carries(header, stamp, rawMac) <==> CollectAll(Split(header)) == Fields(stamp, rawMac)
  {
    SplitCuts(header);
    CollectsLast(Split(header), stamp, rawMac);
    if Carries(header, stamp, rawMac) {
      var parts :| Cuts(header, parts) && LastField(parts, "t", stamp) && LastField(parts, "v1", rawMac);
      OnlyCut(header, parts);
    }
  }

  /** Every header carries one stamp and one MAC. */
  lemma HeaderCarries(header: string) returns (stamp: string, rawMac: string)
    ensures Carries(header, stamp, rawMac)
    ensures forall s, m :: Carries(header, s, m) ==> s == stamp && m == rawMac
  {
    stamp, rawMac := CollectAll(Split(header)).stamp, CollectAll(Split(header)).rawMac;
    CarriesExactly(header, stamp, rawMac);
    forall s, m | Carries(header, s, m) ensures s == stamp && m == rawMac {
      CarriesExactly(header, s, m);
    }
  }

  /** A header is malformed exactly when a field is missing or empty, or is no 64-bit integer or no hexadecimal. */
  lemma ParsesExactly(header: string, stamp: string, rawMac: string)
    requires Carries(header, stamp, rawMac)
    ensures Parse(header).Malformed? <==>
              stamp == "" || rawMac == "" || ParseInt(stamp).None? || HexDecode(rawMac).None?
    ensures Parse(header).Parsed? ==>
              Parse(header) == Parsed(stamp, ParseInt(stamp).value, HexDecode(rawMac).value)
  {
    CarriesExactly(header, stamp, rawMac);
  }

  // ---- The verdict ----

  /** The header names these seconds and this MAC under this stamp. */
  ghost predicate Claims(header: string, stamp: string, seconds: int, mac: seq<Byte>) {
    exists rawMac ::
      && Carries(header, stamp, rawMac) && stamp != "" && rawMac != ""
      && ParseInt(stamp) == Some(seconds) && HexDecode(rawMac) == Some(mac)
  }

  lemma ClaimsExactly(header: string, stamp: string, seconds: int, mac: seq<Byte>)
    ensures Claims(header, stamp, seconds, mac) <==> Parse(header) == Parsed(stamp, seconds, mac)
  {
    var s, m := HeaderCarries(header);
    ParsesExactly(header, s, m);
  }

  /**
   Every header, every tolerance: malformed when nothing can be read from it, stale when what is read is too
   far from the clock, bad when the MAC is not that of the received fields in order, accepted otherwise.
   */
  lemma VerdictExactly(
    tag: Tag, secret: string, header: string, id: int, event: string, body: string, now: int, tolerance: int)
    requires IsInt64(tolerance)
    ensures var v := Verify(tag, secret, header, id, event, body, now, tolerance);
            && (v.MalformedSignature? <==> !exists stamp, seconds, mac :: Claims(header, stamp, seconds, mac))
            && (v.StaleSignature? <==>
                  exists stamp, seconds, mac :: Claims(header, stamp, seconds, mac)
                    && !Within(now, FromUnix(seconds), tolerance))
            && (v.BadSignature? <==>
                  exists stamp, seconds, mac :: Claims(header, stamp, seconds, mac)
                    && Within(now, FromUnix(seconds), tolerance)
                    && mac != tag(secret, stamp + "\n" + FormatInt(id) + "\n" + event + "\n" + body))
            && (v.Accepted? <==>
                  exists stamp, seconds, mac :: Claims(header, stamp, seconds, mac)
                    && Within(now, FromUnix(seconds), tolerance)
                    && mac == tag(secret, stamp + "\n" + FormatInt(id) + "\n" + event + "\n" + body))
  {
    forall stamp, seconds, mac
      ensures Claims(header, stamp, seconds, mac) <==> Parse(header) == Parsed(stamp, seconds, mac)
    {
      ClaimsExactly(header, stamp, seconds, mac);
    }
    match Parse(header)
    case Malformed =>
    case Parsed(stamp, seconds, mac) =>
      assert Claims(header, stamp, seconds, mac);
  }

  /** Without a stamp or without a MAC a header is malformed, whatever else is sent. */
  lemma MissingFieldRefused(
    tag: Tag, secret: string, header: string, id: int, event: string, body: string, now: int, tolerance: int,
    stamp: string, rawMac: string)
    requires Carries(header, stamp, rawMac) && (stamp == "" || rawMac == "")
    ensures Verify(tag, secret, header, id, event, body, now, tolerance) == MalformedSignature
  {
    ParsesExactly(header, stamp, rawMac);
  }

  /** Seconds since the epoch in nanoseconds; beyond the largest date the count starts over 2^64 seconds earlier. */
  lemma FromUnixExactly(seconds: int)
    requires IsInt64(seconds)
    ensures FromUnix(seconds)
            == 1_000_000_000
               * (if seconds <= 9_223_371_974_719_179_007 then seconds else seconds - 0x1_0000_0000_0000_0000)
  {
  }

  /** In nanoseconds: for any tolerance from zero up and any date that can be written, early or late alike. */
  lemma OrdinaryWithin(now: int, seconds: int, tolerance: int)
    requires IsInt64(seconds) && 0 <= tolerance < INT64_MAX && seconds <= 9_223_371_974_719_179_007
    ensures Within(now, FromUnix(seconds), tolerance) <==>
              now - 1_000_000_000 * seconds <= tolerance && 1_000_000_000 * seconds - now <= tolerance
  {
    FromUnixExactly(seconds);
  }

  /** A signed header is the stamp in decimal seconds and the MAC of stamp, id, event and body, in lower-case digits. */
  lemma SignExactly(tag: Tag, secret: string, at: int, id: int, event: string, body: string)
    ensures exists stamp :: stamp == FormatInt(at / 1_000_000_000) &&
              Sign(tag, secret, at, id, event, body)
              == "t=" + stamp + ",v1="
                 + HexEncode(tag(secret, stamp + "\n" + FormatInt(id) + "\n" + event + "\n" + body))
  {
    var stamp := FormatInt(at / 1_000_000_000);
    assert Material(stamp, id, event, body) == stamp + "\n" + FormatInt(id) + "\n" + event + "\n" + body;
  }
}
