/**
  The metrics collector's cap: of all groups it exports the ones with the
  largest estimates, ties broken by name, and counts the rest as dropped.
 */
module Collector {

  /** Go's order on strings: bytewise, a proper prefix first. */
  predicate Less(a: string, b: string)
  {
    b != [] && (a == [] || a[0] < b[0] || (a[0] == b[0] && Less(a[1..], b[1..])))
  }

  lemma {:induction false} LessIsTotal(a: string, b: string)
    ensures Less(a, b) ==> !Less(b, a) && a != b
    ensures a != b ==> Less(a, b) || Less(b, a)
    decreases |a|
  {
    if a != [] && b != [] {
      LessIsTotal(a[1..], b[1..]);
      if a[0] == b[0] && a[1..] == b[1..] {
        assert a == [a[0]] + a[1..] && b == [b[0]] + b[1..];
      }
    }
  }

  /** a comes first where they first differ, or is a proper prefix of b. */
  ghost predicate FirstDiffers(a: string, b: string, k: nat)
  {
    k <= |a| && k < |b| && a[..k] == b[..k] && (k == |a| || a[k] < b[k])
  }

  lemma {:induction false} LessExact(a: string, b: string)
    ensures Less(a, b) <==> exists k: nat :: FirstDiffers(a, b, k)
    decreases |a|
  {
    if a == [] {
      assert b != [] ==> FirstDiffers(a, b, 0);
    } else if b != [] && a[0] < b[0] {
      assert FirstDiffers(a, b, 0);
    } else if b != [] && a[0] == b[0] {
      LessExact(a[1..], b[1..]);
      if k: nat :| FirstDiffers(a[1..], b[1..], k) {
        assert a[..k + 1] == [a[0]] + a[1..][..k] && b[..k + 1] == [b[0]] + b[1..][..k];
        assert FirstDiffers(a, b, k + 1);
      }
      if k: nat :| FirstDiffers(a, b, k) {
        assert a[1..][..k - 1] == a[..k][1..] && b[1..][..k - 1] == b[..k][1..];
        assert FirstDiffers(a[1..], b[1..], k - 1);
      }
    } else {
      forall k: nat ensures !FirstDiffers(a, b, k) {
        assert k > 0 && k <= |a| && k < |b| ==> a[..k][0] != b[..k][0];
      }
    }
  }

  lemma {:induction false} LessIsTransitive(a: string, b: string, c: string)
    requires Less(a, b) && Less(b, c)
    ensures Less(a, c)
    decreases |a|
  {
    if a != [] && a[0] == b[0] && b[0] == c[0] {
      LessIsTransitive(a[1..], b[1..], c[1..]);
    }
  }

  type Cards = map<string, int>

  /** Larger estimate first, then smaller name. */
  predicate Precedes(all: Cards, g: string, h: string)
  {
    g in all && h in all && (all[g] > all[h] || (all[g] == all[h] && Less(g, h)))
  }

  lemma PrecedesIsTotal(all: Cards, g: string, h: string)
    requires g in all && h in all && g != h
    ensures Precedes(all, g, h) <==> !Precedes(all, h, g)
  {
    LessIsTotal(g, h);
  }

  lemma PrecedesIsTransitive(all: Cards, f: string, g: string, h: string)
    requires Precedes(all, f, g) && Precedes(all, g, h)
    ensures Precedes(all, f, h)
  {
    if all[f] == all[g] == all[h] {
      LessIsTransitive(f, g, h);
    }
  }

  /** Groups in export order: each strictly before all that follow. */
  predicate Ranked(all: Cards, s: seq<string>)
  {
    forall i, j | 0 <= i < j < |s| :: Precedes(all, s[i], s[j])
  }

  function InsertRanked(all: Cards, s: seq<string>, g: string): seq<string>
  {
    if s == [] then [g] else if Precedes(all, g, s[0]) then [g] + s else [s[0]] + InsertRanked(all, s[1..], g)
  }

  lemma {:induction false} InsertKeepsRanked(all: Cards, s: seq<string>, g: string)
    requires Ranked(all, s) && g in all && g !in s && forall h | h in s :: h in all
    ensures Ranked(all, InsertRanked(all, s, g))
    ensures forall h :: h in InsertRanked(all, s, g) <==> h == g || h in s
    ensures |InsertRanked(all, s, g)| == |s| + 1
    decreases |s|
  {
    if s != [] {
      if Precedes(all, g, s[0]) {
        forall j | 0 < j < |s| ensures Precedes(all, g, s[j]) {
          PrecedesIsTransitive(all, g, s[0], s[j]);
        }
      } else {
        var rest := InsertRanked(all, s[1..], g);
        PrecedesIsTotal(all, g, s[0]);
        InsertKeepsRanked(all, s[1..], g);
        forall j | 0 <= j < |rest| ensures Precedes(all, s[0], rest[j]) {
          assert rest[j] in rest;
        }
      }
    }
  }

  /** The `n` groups that come before all others. */
  ghost predicate IsTop(all: Cards, top: set<string>, n: nat)
  {
    top <= all.Keys && |top| == n && forall g, h | g in top && h in all.Keys - top :: Precedes(all, g, h)
  }

  /** There is only one such set, so the export cannot depend on the order in which the map is walked. */
  lemma TopIsUnique(all: Cards, s: set<string>, t: set<string>, n: nat)
    requires IsTop(all, s, n) && IsTop(all, t, n)
    ensures s == t
  {
    if s != t {
      var g := PickMissing(s, t);
      var h := PickMissing(t, s);
      PrecedesIsTotal(all, g, h);
      assert false;
    }
  }

  lemma SubsetOfSameSize(s: set<string>, t: set<string>)
    ensures s - t == {} && |s| == |t| ==> s == t
  {
    assert s == (s - t) + s * t && t == (t - s) + s * t;
    assert |s| == |s - t| + |s * t| && |t| == |t - s| + |s * t|;
  }

  lemma PickMissing(s: set<string>, t: set<string>) returns (g: string)
    requires s != t && |s| == |t|
    ensures g in s - t
  {
    SubsetOfSameSize(s, t);
    g :| g in s - t;
  }

  function Elements(s: seq<string>): set<string>
  {
    set g | g in s
  }

  predicate Distinct(s: seq<string>)
  {
    forall i, j | 0 <= i < j < |s| :: s[i] != s[j]
  }

  lemma ElementsAppend(s: seq<string>, g: string)
    ensures Elements(s + [g]) == Elements(s) + {g}
  {
  }

  lemma {:induction false} DistinctLength(s: seq<string>)
    requires Distinct(s)
    ensures |Elements(s)| == |s|
    decreases |s|
  {
    if s != [] {
      var init, last := s[..|s| - 1], s[|s| - 1];
      DistinctLength(init);
      assert s == init + [last];
      ElementsAppend(init, last);
    }
  }

  lemma RankedIsDistinct(all: Cards, s: seq<string>)
    requires Ranked(all, s)
    ensures Distinct(s)
  {
    forall i, j | 0 <= i < j < |s| ensures s[i] != s[j] {
      assert Precedes(all, s[i], s[j]);
      LessIsTotal(s[i], s[j]);
    }
  }

  lemma PrefixIsTop(all: Cards, s: seq<string>, n: nat)
    requires Ranked(all, s) && Elements(s) == all.Keys && n <= |s|
    ensures IsTop(all, Elements(s[..n]), n)
  {
    RankedIsDistinct(all, s);
    DistinctLength(s[..n]);
    assert forall k | 0 <= k < n :: s[k] in s[..n];
    forall g, h | g in s[..n] && h in all.Keys && h !in s[..n] ensures Precedes(all, g, h) {
      var i :| 0 <= i < n && s[i] == g;
      assert h in Elements(s);
      var j :| 0 <= j < |s| && s[j] == h;
    }
  }

  /** The groups in export order: the result of sorting them by Precedes. */
  method Rank(all: Cards, groups: seq<string>) returns (s: seq<string>)
    requires Distinct(groups)
    requires forall g | g in groups :: g in all
    ensures Ranked(all, s) && |s| == |groups| && forall g :: g in s <==> g in groups
  {
    s := [];
    for k := 0 to |groups|
      invariant Ranked(all, s) && |s| == k && forall g :: g in s <==> g in groups[..k]
    {
      assert groups[..k + 1] == groups[..k] + [groups[k]];
      InsertKeepsRanked(all, s, groups[k]);
      s := InsertRanked(all, s, groups[k]);
    }
    assert groups[..|groups|] == groups;
  }

  /** The groups in whatever order the map yields them. */
  method GroupsOf(all: Cards) returns (groups: seq<string>)
    ensures Distinct(groups) && Elements(groups) == all.Keys && |groups| == |all|
  {
    groups := [];
    var todo := all.Keys;
    while todo != {}
      invariant todo <= all.Keys && Elements(groups) == all.Keys - todo
      invariant Distinct(groups)
      decreases |todo|
    {
      var g :| g in todo;
      assert g !in Elements(groups);
      ElementsAppend(groups, g);
      groups, todo := groups + [g], todo - {g};
    }
    DistinctLength(groups);
  }

  /** Groups are ranked and cut only when the cap is exceeded; what is exported is the top of the ranking either way. */
  method Collect(all: Cards, maxGroups: int) returns (exported: seq<string>, dropped: nat)
    ensures |exported| + dropped == |all| && IsTop(all, Elements(exported), |exported|)
    ensures dropped == if 0 < maxGroups < |all| then |all| - maxGroups else 0
    ensures forall g, h | g in exported && h in all && h !in exported ::
              g in all && (all[g] > all[h] || (all[g] == all[h] && Less(g, h)))
    ensures dropped > 0 ==> Ranked(all, exported)
  {
    var groups := GroupsOf(all);
    exported, dropped := groups, 0;
    if maxGroups > 0 && |groups| > maxGroups {
      var s := Rank(all, groups);
      assert Elements(s) == Elements(groups);
      PrefixIsTop(all, s, maxGroups);
      dropped := |groups| - maxGroups;
      exported := s[..maxGroups];
    }
  }
}
