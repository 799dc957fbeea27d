/**
 * The projects page's split into at most three featured projects and the
 * rest.  `featured.includes(p)` compares object identity, so the model
 * works with positions in the input: two equal records at different
 * positions are different projects.
 */
module ProjectsGrid {
  import opened Content
  import opened Projects

  /** `p.kind === "tool" || p.status === "active"`. */
  predicate Qualifies(p: Project) {
    p.kind == Str("tool") || p.status == Str("active")
  }

  /** The positions are strictly increasing and all below `n`. */
  predicate Ascending(positions: seq<nat>, n: nat) {
    (forall k :: 0 <= k < |positions| ==> positions[k] < n)
    && (forall j, k :: 0 <= j < k < |positions| ==> positions[j] < positions[k])
  }

  /** The positions of `projects.filter(qualifies)`, in order. */
  function QualifyingPositions(projects: seq<Project>): (r: seq<nat>)
    ensures Ascending(r, |projects|)
    ensures forall k :: 0 <= k < |r| ==> Qualifies(projects[r[k]])
    ensures forall i :: 0 <= i < |projects| && Qualifies(projects[i]) ==> i in r
  {
    if projects == [] then []
    else
      var n := |projects| - 1;
      var prev := QualifyingPositions(projects[..n]);
      assert forall i :: 0 <= i < n ==> projects[..n][i] == projects[i];
      if Qualifies(projects[n]) then prev + [n] else prev
  }

  /** The positions of `featured`: the first three qualifying positions, or all of them when fewer. */
  function FeaturedPositions(projects: seq<Project>): seq<nat> {
    var q := QualifyingPositions(projects);
    if |q| <= 3 then q else q[..3]
  }

  /** The positions of `regular`: those not featured, in order. */
  function RegularPositions(projects: seq<Project>, featured: seq<nat>, n: nat): (r: seq<nat>)
    requires n <= |projects|
    ensures Ascending(r, n)
    ensures forall i :: 0 <= i < n ==> (i in r <==> i !in featured)
  {
    if n == 0 then []
    else
      var prev := RegularPositions(projects, featured, n - 1);
      if n - 1 in featured then prev else prev + [n - 1]
  }

  /** `featured`: the projects at the featured positions. */
  function Featured(projects: seq<Project>): seq<Project> {
    var f := FeaturedPositions(projects);
    seq(|f|, k requires 0 <= k < |f| => projects[f[k]])
  }

  /** `regular`: the projects at the other positions, in input order. */
  function Regular(projects: seq<Project>): seq<Project> {
    var r := RegularPositions(projects, FeaturedPositions(projects), |projects|);
    seq(|r|, k requires 0 <= k < |r| => projects[r[k]])
  }

  /**
   * At most three projects are featured, each qualifies, they keep input
   * order, and they are the first qualifying ones: a qualifying project
   * left out comes after three featured ones.
   */
  lemma FeaturedMeaning(projects: seq<Project>)
    ensures |Featured(projects)| <= 3
    ensures forall k :: 0 <= k < |Featured(projects)| ==> Qualifies(Featured(projects)[k])
    ensures Ascending(FeaturedPositions(projects), |projects|)
    ensures forall i :: 0 <= i < |projects| && Qualifies(projects[i]) && i !in FeaturedPositions(projects) ==>
      |FeaturedPositions(projects)| == 3 && forall k :: 0 <= k < 3 ==> FeaturedPositions(projects)[k] < i
  {
    var q := QualifyingPositions(projects);
    var f := FeaturedPositions(projects);
    forall i | 0 <= i < |projects| && Qualifies(projects[i]) && i !in f
      ensures |f| == 3 && forall k :: 0 <= k < 3 ==> f[k] < i
    {
      var m :| 0 <= m < |q| && q[m] == i;
      assert m >= 3;
    }
  }

  /**
   * `featured` and `regular` split the input: every position is in exactly
   * one of them, and `regular` keeps input order.
   */
  lemma SplitPartitions(projects: seq<Project>)
    ensures forall i :: 0 <= i < |projects| ==>
      (i in FeaturedPositions(projects) <==> i !in RegularPositions(projects, FeaturedPositions(projects), |projects|))
    ensures Ascending(RegularPositions(projects, FeaturedPositions(projects), |projects|), |projects|)
  {
  }

  /** When every project qualifies, the qualifying positions are all of them. */
  lemma {:induction false} AllQualify(projects: seq<Project>)
    requires forall i :: 0 <= i < |projects| ==> Qualifies(projects[i])
    ensures QualifyingPositions(projects) == seq(|projects|, k => k)
  {
    if projects != [] {
      var n := |projects| - 1;
      AllQualify(projects[..n]);
    }
  }

  /**
   * The "More Projects" block shows exactly when some project is not
   * featured: when there are more than three or one does not qualify.
   */
  lemma MoreProjectsMeaning(projects: seq<Project>)
    ensures Regular(projects) != [] <==> |projects| > 3 || exists i :: 0 <= i < |projects| && !Qualifies(projects[i])
  {
    var q := QualifyingPositions(projects);
    var f := FeaturedPositions(projects);
    var r := RegularPositions(projects, f, |projects|);
    assert |Regular(projects)| == |r|;
    if exists i :: 0 <= i < |projects| && !Qualifies(projects[i]) {
      var i :| 0 <= i < |projects| && !Qualifies(projects[i]);
      assert forall k :: 0 <= k < |f| ==> f[k] == q[k];
      assert i in r;
    } else {
      AllQualify(projects);
      if |projects| > 3 {
        assert f == q[..3];
        assert 3 !in f;
        assert 3 in r;
      } else {
        assert f == q;
        RegularNone(projects, f, |projects|);
      }
    }
  }

  /** No position is left for `regular` when every position below `n` is featured. */
  lemma {:induction false} RegularNone(projects: seq<Project>, featured: seq<nat>, n: nat)
    requires n <= |projects|
    requires forall i :: 0 <= i < n ==> i in featured
    ensures RegularPositions(projects, featured, n) == []
  {
    if n > 0 {
      RegularNone(projects, featured, n - 1);
    }
  }
}
