/**
  Host patterns: the part of the regular expressions of PostgreSQL that generated patterns use, alternatives of
  literal characters and dots, searched anywhere in the host and without regard to case.
 */
module Hosts {
  import opened Copying

  const METACHARACTERS := "\\^$*+?()[]{}"

  /** No special characters besides the bar and the dot. */
  predicate IsPlain(p: string) {
    forall i | 0 <= i < |p| :: p[i] !in METACHARACTERS
  }

  function Branches(p: string): (b: seq<string>)
    ensures |b| > 0
  {
    if p == [] then [""]
    else
      var rest := Branches(p[1..]);
      if p[0] == '|' then [""] + rest else [[p[0]] + rest[0]] + rest[1..]
  }

  predicate BranchAt(b: string, h: string, i: nat) {
    i + |b| <= |h| && forall j | 0 <= j < |b| :: b[j] == '.' || SameLetter(b[j], h[i + j])
  }

  predicate PlainMatch(p: string, h: string) {
    exists k, i | 0 <= k < |Branches(p)| && 0 <= i <= |h| :: BranchAt(Branches(p)[k], h, i)
  }

  /** The operator agrees with the search above on plain patterns; about other patterns nothing is said. */
  ghost predicate Implements(matches: (string, string) -> bool) {
    forall p, h :: IsPlain(p) ==> (matches(p, h) <==> PlainMatch(p, h))
  }

  ghost predicate NamedAt(h: string, shortName: string, i: nat) {
    var n := |shortName| + 4;
    i + n <= |h| && SameButCase(h[i..i + n], shortName + ".web")
  }

  /**
    The hosts a tenant answers to: two fixed ones, and every host that holds its short name and ".web" somewhere, each
    letter in either case: "s.web", "S.web:8080", "www.s.WEB".
   */
  ghost predicate NamesTenant(h: string, shortName: string) {
    h == "0.0.0.0" || h == "localhost" || exists i :: NamedAt(h, shortName, i)
  }

  lemma {:induction false} OneBranch(p: string)
    requires '|' !in p
    ensures Branches(p) == [p]
  {
    if p != [] {
      OneBranch(p[1..]);
      assert p == [p[0]] + p[1..];
    }
  }

  lemma {:induction false} BranchesOfAlternative(a: string, b: string)
    requires '|' !in a
    ensures Branches(a + "|" + b) == [a] + Branches(b)
  {
    var p := a + "|" + b;
    if a == [] {
      assert p[1..] == b;
    } else {
      assert p[1..] == a[1..] + "|" + b;
      BranchesOfAlternative(a[1..], b);
      assert a == [a[0]] + a[1..];
    }
  }

  /** A generated pattern has three branches, and the third is the tenant's own. */
  lemma BranchesOfHostPattern(shortName: string)
    requires '|' !in shortName
    ensures Branches(HostPattern(shortName)) == ["0.0.0.0", "localhost", Lower(shortName) + ".web"]
  {
    var own := Lower(shortName) + ".web";
    assert '|' !in own by {
      forall i | 0 <= i < |own| ensures own[i] != '|' {
        assert i < |shortName| ==> own[i] == LowerChar(shortName[i]);
      }
    }
    assert HostPattern(shortName) == "0.0.0.0" + "|" + ("localhost" + "|" + own);
    BranchesOfAlternative("0.0.0.0", "localhost" + "|" + own);
    BranchesOfAlternative("localhost", own);
    OneBranch(own);
  }

  lemma HostPatternIsPlain(shortName: string)
    requires IsPlain(shortName)
    ensures IsPlain(HostPattern(shortName))
  {
    var p, n := HostPattern(shortName), |shortName|;
    var front, own := "0.0.0.0|localhost|", Lower(shortName);
    assert p == front + own + ".web";
    forall i | 0 <= i < |p| ensures p[i] !in METACHARACTERS {
      if |front| <= i < |front| + n {
        assert p[i] == LowerChar(shortName[i - |front|]);
      }
    }
  }

  lemma SameTextMatches(p: string, k: nat, h: string)
    requires k < |Branches(p)| && Branches(p)[k] == h
    ensures PlainMatch(p, h)
  {
    assert BranchAt(Branches(p)[k], h, 0);
  }

  /** The pattern of a tenant finds every host that names it. */
  lemma OwnHostMatches(shortName: string, h: string)
    requires '|' !in shortName && NamesTenant(h, shortName)
    ensures PlainMatch(HostPattern(shortName), h)
  {
    BranchesOfHostPattern(shortName);
    if h == "0.0.0.0" {
      SameTextMatches(HostPattern(shortName), 0, h);
    } else if h == "localhost" {
      SameTextMatches(HostPattern(shortName), 1, h);
    } else {
      var i: nat :| NamedAt(h, shortName, i);
      OwnBranchAt(shortName, h, i);
      assert BranchAt(Branches(HostPattern(shortName))[2], h, i);
    }
  }

  lemma OwnBranchAt(shortName: string, h: string, i: nat)
    requires NamedAt(h, shortName, i)
    ensures BranchAt(Lower(shortName) + ".web", h, i)
  {
    var n := |shortName| + 4;
    var own, name := Lower(shortName) + ".web", shortName + ".web";
    forall j | 0 <= j < n ensures SameLetter(own[j], h[i + j]) {
      assert h[i..i + n][j] == h[i + j] && SameLetter(h[i..i + n][j], name[j]);
      if j < |shortName| {
        SameWhenLowered(shortName[j], shortName[j]);
      }
      assert LowerChar(own[j]) == LowerChar(name[j]);
      SameWhenLowered(own[j], name[j]);
      SameWhenLowered(h[i + j], name[j]);
      SameWhenLowered(own[j], h[i + j]);
    }
  }

  lemma BranchMatches(p: string, k: nat, h: string, i: nat)
    requires k < |Branches(p)| && BranchAt(Branches(p)[k], h, i)
    ensures PlainMatch(p, h)
  {
  }

  lemma BranchesOfCBRA()
    ensures Branches(HostPattern("CBRA")) == ["0.0.0.0", "localhost", "cbra.web"]
  {
    var low := Lower("CBRA");
    assert low == "cbra" && low + ".web" == "cbra.web";
    BranchesOfHostPattern("CBRA");
  }

  lemma CbraAt(h: string)
    requires |h| >= 8 && SameButCase(h[..4], "cbra") && SameButCase(h[5..8], "web")
    ensures BranchAt("cbra.web", h, 0)
  {
    forall j | 0 <= j < 8 ensures "cbra.web"[j] == '.' || SameLetter("cbra.web"[j], h[j]) {
      if j < 4 {
        assert h[j] == h[..4][j] && "cbra.web"[j] == "cbra"[j];
      } else if j > 4 {
        assert h[j] == h[5..8][j - 5] && "cbra.web"[j] == "web"[j - 5];
      }
    }
  }

  /** The pattern of CBRA finds "cbra" at the front in any case, any character for the dot, and what may follow. */
  lemma FrontOfCBRA(h: string)
    requires |h| >= 8 && SameButCase(h[..4], "cbra") && SameButCase(h[5..8], "web")
    ensures PlainMatch(HostPattern("CBRA"), h)
  {
    BranchesOfCBRA();
    CbraAt(h);
    BranchMatches(HostPattern("CBRA"), 2, h, 0);
  }

  /** Concretely, its host in another case and with a port, */
  lemma HostWithPort()
    ensures PlainMatch(HostPattern("CBRA"), "Cbra.Web:8080")
  {
    var h := "Cbra.Web:8080";
    assert h[..4] == "Cbra" && h[5..8] == "Web";
    FrontOfCBRA(h);
  }

  /** and a host that has no dot. */
  lemma HostWithoutDot()
    ensures PlainMatch(HostPattern("CBRA"), "cbra-web")
  {
    var h := "cbra-web";
    assert h[..4] == "cbra" && h[5..8] == "web";
    FrontOfCBRA(h);
  }

  lemma NotAtAtra(b: string, i: nat)
    requires b == "0.0.0.0" || b == "localhost" || b == "cbra.web"
    ensures !BranchAt(b, "atra.web", i)
  {
    var h := "atra.web";
    assert h[0] == 'a' && h[1] == 't';
    if b == "cbra.web" {
      assert b[0] == 'c' && |b| == 8;
    } else if b == "0.0.0.0" {
      assert b[0] == '0' && |b| == 7;
    } else {
      assert |b| == 9;
    }
    if i + |b| <= |h| {
      assert i <= 1 && !SameLetter(b[0], h[i + 0]) && b[0] != '.';
    }
  }

  /** And it does not find the host of another tenant. */
  lemma OtherHost()
    ensures !PlainMatch(HostPattern("CBRA"), "atra.web")
  {
    BranchesOfCBRA();
    var b := Branches(HostPattern("CBRA"));
    forall k, i | 0 <= k < |b| && 0 <= i <= |"atra.web"| ensures !BranchAt(b[k], "atra.web", i) {
      NotAtAtra(b[k], i);
    }
  }
}
