/** The typosquat check of content_analysis/urls.py. */
module Typosquat {
  import opened Text
  import opened Numbers
  import opened EditDistance

  /** The two-row dynamic program; each row is an array whose cells are overwritten. */
  method Levenshtein(a: string, b: string) returns (d: nat)
    ensures IsEditDistance(d, a, b)
  {
    if a == b {
      LevSelf(a);
      LevIsShortestChain(a, b, 0);
      return 0;
    }
    if a == "" {
      DistanceOfEmpty(b);
      return |b|;
    }
    if b == "" {
      DistanceOfEmpty(a);
      return |a|;
    }
    var prev := new nat[|b| + 1](j => j);
    assert forall j: nat :: j <= |b| ==> Cell(a, b, 0, j) == j;
    for i := 0 to |a|
      invariant fresh(prev) && prev.Length == |b| + 1
      invariant forall j :: 0 <= j <= |b| ==> prev[j] == Cell(a, b, i, j)
    {
      var cur := new nat[|b| + 1](j => if j == 0 then i + 1 else 0);
      CellEdge(a, b, i + 1, 0);
      for j := 0 to |b|
        invariant forall k :: 0 <= k <= |b| ==> prev[k] == Cell(a, b, i, k)
        invariant forall k :: 0 <= k <= j ==> cur[k] == Cell(a, b, i + 1, k)
      {
        var cost := if a[i] == b[j] then 0 else 1;
        CellStep(a, b, i, j);
        cur[j + 1] := Min(Min(prev[j + 1] + 1, cur[j] + 1), prev[j] + cost);
      }
      prev := cur;
    }
    LastCell(a, b);
    return prev[|b|];
  }

  /** What the scan looks for in a lower-cased watch-list entry. */
  ghost predicate Impersonates(domain: string, watched: string, labelOf: string -> string, maxDistance: int) {
    && domain != watched
    && (Contains(domain, watched)
        || exists d: nat :: IsEditDistance(d, labelOf(domain), labelOf(watched)) && 1 <= d <= maxDistance)
  }

  lemma NearMeansImpersonates(domain: string, watched: string, labelOf: string -> string, maxDistance: int, d: nat)
    requires domain != watched && !Contains(domain, watched) && IsEditDistance(d, labelOf(domain), labelOf(watched))
    ensures Impersonates(domain, watched, labelOf, maxDistance)
            <==> d <= maxDistance && labelOf(domain) != labelOf(watched)
  {
    DistanceIsUnique(labelOf(domain), labelOf(watched), d);
  }

  /** `labelOf` is the registrable label of a lower-cased domain. */
  method FindTyposquatTarget(rawDomain: string, watchlist: seq<string>, maxDistance: int, labelOf: string -> string)
    returns (target: Option<string>)
    ensures target.None? <==>
            forall i :: 0 <= i < |watchlist| ==>
              !Impersonates(Lower(rawDomain), Lower(watchlist[i]), labelOf, maxDistance)
    ensures target.Some? ==>
            exists i :: 0 <= i < |watchlist| && target.value == Lower(watchlist[i])
                     && Impersonates(Lower(rawDomain), Lower(watchlist[i]), labelOf, maxDistance)
                     && forall k :: 0 <= k < i ==>
                          !Impersonates(Lower(rawDomain), Lower(watchlist[k]), labelOf, maxDistance)
  {
    var domain := Lower(rawDomain);
    for i := 0 to |watchlist|
      invariant forall k :: 0 <= k < i ==> !Impersonates(domain, Lower(watchlist[k]), labelOf, maxDistance)
    {
      var watched := Lower(watchlist[i]);
      if domain != watched {
        if Contains(domain, watched) {
          return Some(watched);
        }
        var d := Levenshtein(labelOf(domain), labelOf(watched));
        NearMeansImpersonates(domain, watched, labelOf, maxDistance, d);
        if d <= maxDistance && labelOf(domain) != labelOf(watched) {
          return Some(watched);
        }
      }
    }
    return None;
  }
}
