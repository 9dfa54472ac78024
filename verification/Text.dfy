/** String operations the server leans on: trimming, case folding and ordering. */
module Text {

  datatype Option<+T> = None | Some(value: T)

  /** White space as `strings.TrimSpace` sees it, for code points below U+0100. */
  predicate IsSpace(c: char) {
    c == ' ' || '\t' <= c <= '\r' || c == '\U{85}' || c == '\U{A0}'
  }

  predicate Trimmed(s: string) {
    s != "" ==> !IsSpace(s[0]) && !IsSpace(s[|s| - 1])
  }

  function TrimLeft(s: string): string {
    if s != "" && IsSpace(s[0]) then TrimLeft(s[1..]) else s
  }

  function TrimRight(s: string): string {
    if s != "" && IsSpace(s[|s| - 1]) then TrimRight(s[..|s| - 1]) else s
  }

  function Trim(s: string): string {
    TrimRight(TrimLeft(s))
  }

  lemma TrimRightKeepsHead(s: string)
    requires s != "" && !IsSpace(s[0])
    ensures TrimRight(s) != "" && TrimRight(s)[0] == s[0]
  {
  }

  lemma TrimLeftHead(s: string)
    ensures TrimLeft(s) != "" ==> !IsSpace(TrimLeft(s)[0])
  {
  }

  lemma TrimRightLast(s: string)
    ensures TrimRight(s) != "" ==> !IsSpace(TrimRight(s)[|TrimRight(s)| - 1])
  {
  }

  lemma TrimIsTrimmed(s: string)
    ensures Trimmed(Trim(s))
  {
    TrimLeftHead(s);
    TrimRightLast(TrimLeft(s));
    if TrimLeft(s) != "" {
      TrimRightKeepsHead(TrimLeft(s));
    }
  }

  lemma TrimOfTrimmed(s: string)
    requires Trimmed(s)
    ensures Trim(s) == s
  {
  }

  function LowerChar(c: char): char {
    if 'A' <= c <= 'Z' then c + 32 as char else c
  }

  /** Case folding, modelled on ASCII letters. */
  function Lower(s: string): string {
    seq(|s|, i requires 0 <= i < |s| => LowerChar(s[i]))
  }

  /** Lexicographic order on strings, as Go's `<` compares them. */
  predicate Less(a: string, b: string) {
    b != "" && (a == "" || a[0] < b[0] || (a[0] == b[0] && Less(a[1..], b[1..])))
  }

  ghost predicate Lacks(s: string, c: char) {
    forall i :: 0 <= i < |s| ==> s[i] != c
  }

  lemma {:induction false} LessIrreflexive(a: string)
    ensures !Less(a, a)
  {
    if a != "" {
      LessIrreflexive(a[1..]);
    }
  }

  lemma {:induction false} LessTransitive(a: string, b: string, c: string)
    requires Less(a, b) && Less(b, c)
    ensures Less(a, c)
  {
    if a != "" && a[0] == b[0] == c[0] {
      LessTransitive(a[1..], b[1..], c[1..]);
    }
  }

  lemma {:induction false} LessTotal(a: string, b: string)
    ensures a == b || Less(a, b) || Less(b, a)
  {
    if a != "" && b != "" && a[0] == b[0] {
      LessTotal(a[1..], b[1..]);
      assert a == [a[0]] + a[1..] && b == [b[0]] + b[1..];
    }
  }

  // ---- What trimming and folding mean ----

  /** Only white space, character by character. */
  ghost predicate Blank(s: string) {
    forall i :: 0 <= i < |s| ==>
      s[i] in {' ', '\t', '\n', '\U{0B}', '\U{0C}', '\r', '\U{85}', '\U{A0}'}
  }

  lemma {:induction false} TrimLeftSplits(s: string) returns (l: string)
    ensures s == l + TrimLeft(s) && Blank(l)
  {
    l := "";
    if s != "" && IsSpace(s[0]) {
      l := TrimLeftSplits(s[1..]);
      l := [s[0]] + l;
    }
  }

  lemma {:induction false} TrimRightSplits(s: string) returns (r: string)
    ensures s == TrimRight(s) + r && Blank(r)
  {
    r := "";
    if s != "" && IsSpace(s[|s| - 1]) {
      r := TrimRightSplits(s[..|s| - 1]);
      r := r + [s[|s| - 1]];
    }
  }

  lemma {:induction false} TrimLeftDrops(l: string, s: string)
    requires Blank(l) && (s != "" ==> !IsSpace(s[0]))
    ensures TrimLeft(l + s) == s
  {
    if l != "" {
      assert (l + s)[1..] == l[1..] + s;
      TrimLeftDrops(l[1..], s);
    } else {
      assert l + s == s;
    }
  }

  lemma {:induction false} TrimRightDrops(s: string, r: string)
    requires Blank(r) && (s != "" ==> !IsSpace(s[|s| - 1]))
    ensures TrimRight(s + r) == s
  {
    if r != "" {
      var n := |r| - 1;
      assert (s + r)[..|s| + n] == s + r[..n];
      TrimRightDrops(s, r[..n]);
    } else {
      assert s + r == s;
    }
  }

  lemma {:induction false} TrimLeftBlank(s: string)
    requires Blank(s)
    ensures TrimLeft(s) == ""
  {
    if s != "" {
      TrimLeftBlank(s[1..]);
    }
  }

  /** White space around a string without any at its ends is what trimming takes off. */
  lemma TrimDrops(l: string, t: string, r: string)
    requires Blank(l) && Blank(r) && (t != "" ==> !Blank(t[..1]) && !Blank(t[|t| - 1..]))
    ensures Trim(l + t + r) == t
  {
    if t == "" {
      assert l + t + r == l + r;
      TrimLeftBlank(l + r);
    } else {
      assert l + t + r == l + (t + r);
      assert !IsSpace(t[0]) && !IsSpace(t[|t| - 1]);
      TrimLeftDrops(l, t + r);
      TrimRightDrops(t, r);
    }
  }

  /** Trimming takes white space off both ends, all of it and nothing else. */
  lemma TrimExactly(s: string, t: string)
    ensures Trim(s) == t <==>
              && (t != "" ==> !Blank(t[..1]) && !Blank(t[|t| - 1..]))
              && exists l, r :: Blank(l) && Blank(r) && s == l + t + r
  {
    var l := TrimLeftSplits(s);
    var r := TrimRightSplits(TrimLeft(s));
    assert s == l + Trim(s) + r;
    TrimIsTrimmed(s);
    var u := Trim(s);
    if u != "" {
      assert u[..1][0] == u[0] && u[|u| - 1..][0] == u[|u| - 1];
    }
    if (t != "" ==> !Blank(t[..1]) && !Blank(t[|t| - 1..])) && exists l, r :: Blank(l) && Blank(r) && s == l + t + r {
      var l, r :| Blank(l) && Blank(r) && s == l + t + r;
      TrimDrops(l, t, r);
    }
  }

  /** Folding leaves no capital, and makes two strings equal exactly when they differ in the case of letters only. */
  lemma LowerExactly(s: string, t: string)
    ensures |Lower(s)| == |s| && forall i :: 0 <= i < |s| ==> !('A' <= Lower(s)[i] <= 'Z')
    ensures Lower(s) == Lower(t) <==>
              |s| == |t| && forall i :: 0 <= i < |s| ==>
                || s[i] == t[i]
                || ('A' <= s[i] <= 'Z' && t[i] as int == s[i] as int + 32)
                || ('A' <= t[i] <= 'Z' && s[i] as int == t[i] as int + 32)
  {
    if Lower(s) == Lower(t) {
      assert |s| == |Lower(s)| == |Lower(t)| == |t|;
      forall i | 0 <= i < |s| ensures LowerChar(s[i]) == LowerChar(t[i]) {
        assert Lower(s)[i] == Lower(t)[i];
      }
    }
  }

  /** One string sorts before another where they first part: at a lesser character, or by ending there. */
  lemma {:induction false} LessExactly(a: string, b: string)
    ensures Less(a, b) <==>
              exists k: nat :: k <= |a| && k < |b| && a[..k] == b[..k] && (k == |a| || a[k] < b[k])
  {
    if a != "" && b != "" && a[0] == b[0] {
      LessExactly(a[1..], b[1..]);
      assert a == [a[0]] + a[1..] && b == [b[0]] + b[1..];
      if k: nat :| k <= |a| && k < |b| && a[..k] == b[..k] && (k == |a| || a[k] < b[k]) {
        assert k > 0;
        assert a[1..][..k - 1] == a[..k][1..] && b[1..][..k - 1] == b[..k][1..];
      }
      if Less(a[1..], b[1..]) {
        var k: nat :| k <= |a[1..]| && k < |b[1..]| && a[1..][..k] == b[1..][..k]
          && (k == |a[1..]| || a[1..][k] < b[1..][k]);
        assert a[..k + 1] == [a[0]] + a[1..][..k] && b[..k + 1] == [b[0]] + b[1..][..k];
      }
    } else if b != "" {
      assert a[..0] == b[..0];
      if a != "" {
        forall k: nat | 0 < k <= |a| && k < |b| ensures a[..k] != b[..k] {
          assert a[..k][0] == a[0] && b[..k][0] == b[0];
        }
      }
    }
  }
}
