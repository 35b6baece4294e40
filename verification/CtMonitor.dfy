/** The certificate-transparency monitor of threat_intel/ct_monitor.py. */
module CtMonitor {
  import opened Text
  import opened Numbers
  import opened EditDistance

  /** The second dynamic program: rows are built by appending, and the longer string comes first. */
  method LevenshteinDistance(s1: string, s2: string) returns (d: nat)
    ensures IsEditDistance(d, s1, s2)
    decreases |s2| - |s1|
  {
    if |s1| < |s2| {
      d := LevenshteinDistance(s2, s1);
      DistanceIsSymmetric(s2, s1, d);
      return;
    }
    if |s2| == 0 {
      DistanceOfEmpty(s1);
      return |s1|;
    }
    var previousRow: seq<nat> := seq(|s2| + 1, j => j);
    for i := 0 to |s1|
      invariant |previousRow| == |s2| + 1
      invariant forall j :: 0 <= j <= |s2| ==> previousRow[j] == Cell(s1, s2, i, j)
    {
      var currentRow: seq<nat> := [i + 1];
      for j := 0 to |s2|
        invariant |currentRow| == j + 1
        invariant forall k :: 0 <= k <= j ==> currentRow[k] == Cell(s1, s2, i + 1, k)
      {
        var insertions := previousRow[j + 1] + 1;
        var deletions := currentRow[j] + 1;
        var substitutions := previousRow[j] + if s1[i] != s2[j] then 1 else 0;
        CellStep(s1, s2, i, j);
        currentRow := currentRow + [Min(Min(insertions, deletions), substitutions)];
      }
      previousRow := currentRow;
    }
    LastCell(s1, s2);
    return previousRow[|s2|];
  }

  function Clean(domain: string): string {
    Strip(Lower(domain))
  }

  function BaseName(domain: string): string {
    Before(Clean(domain), '.')
  }

  ghost predicate Squats(target: string, brand: string, d: nat) {
    && Clean(target) != Clean(brand)
    && 1 <= d <= 2 && |BaseName(brand)| > 3
    && IsEditDistance(d, BaseName(target), BaseName(brand))
  }

  ghost predicate Embeds(target: string, brand: string) {
    Clean(target) != Clean(brand) && Contains(BaseName(target), BaseName(brand))
  }

  ghost predicate IsLookalike(target: string, brands: set<string>) {
    exists brand :: brand in brands && (Embeds(target, brand) || exists d: nat :: Squats(target, brand, d))
  }

  /** The distance the alert reports for this brand: 0 stands for a substring hit. */
  ghost predicate Explains(target: string, brand: string, d: nat) {
    if d == 0 then Embeds(target, brand) && !(exists e: nat :: Squats(target, brand, e)) else Squats(target, brand, d)
  }

  datatype Alert = Alert(domain: string, brand: string, distance: nat, issuer: string, serialNumber: string,
                         timestamp: Option<real>)

  /** The dictionary of a log entry; None is a key it does not have. */
  class CertData {
    var domains: Option<seq<string>>
    var cn: Option<string>
    var issuer: Option<string>
    var serialNumber: Option<string>
    var timestamp: Option<real>

    constructor (domains: Option<seq<string>>, cn: Option<string>, issuer: Option<string>, serialNumber: Option<string>,
                 timestamp: Option<real>)
      ensures this.domains == domains && this.cn == cn && this.issuer == issuer
      ensures this.serialNumber == serialNumber && this.timestamp == timestamp
    {
      this.domains, this.cn, this.issuer, this.serialNumber, this.timestamp :=
        domains, cn, issuer, serialNumber, timestamp;
    }

    /** The names checked: the listed domains and then the common name. */
    function Names(): seq<string>
      reads this
    {
      (if domains.Some? then domains.value else []) + if cn.Some? then [cn.value] else []
    }
  }

  function OrElse<T>(value: Option<T>, other: T): T {
    if value.Some? then value.value else other
  }

  class CTLogMonitor {
    var brandDomains: set<string>
    var suspiciousCerts: seq<Alert>

    constructor (domains: set<string>)
      ensures brandDomains == (set d | d in domains :: Clean(d)) && suspiciousCerts == []
    {
      brandDomains := set d | d in domains :: Clean(d);
      suspiciousCerts := [];
    }

    method AddBrandDomain(domain: string)
      modifies this
      ensures brandDomains == old(brandDomains) + {Clean(domain)} && suspiciousCerts == old(suspiciousCerts)
    {
      brandDomains := brandDomains + {Clean(domain)};
    }

    /** Brands are visited in no particular order; whether there is a hit does not depend on it. */
    method IsLookalikeDomain(target: string) returns (hit: Option<(string, nat)>)
      ensures hit.Some? <==> IsLookalike(target, brandDomains)
      ensures hit.Some? ==>
              exists brand :: brand in brandDomains && hit.value.0 == Clean(brand)
                && Explains(target, brand, hit.value.1)
    {
      var remaining := brandDomains;
      while remaining != {}
        invariant remaining <= brandDomains
        invariant forall b :: b in brandDomains - remaining ==> !IsLookalike(target, {b})
        decreases remaining
      {
        var brand :| brand in remaining;
        remaining := remaining - {brand};
        if Clean(target) != Clean(brand) {
          var dist := LevenshteinDistance(BaseName(target), BaseName(brand));
          DistanceIsUnique(BaseName(target), BaseName(brand), dist);
          if 1 <= dist <= 2 && |BaseName(brand)| > 3 {
            assert Squats(target, brand, dist);
            return Some((Clean(brand), dist));
          }
          if Contains(BaseName(target), BaseName(brand)) {
            assert Embeds(target, brand) && Explains(target, brand, 0);
            return Some((Clean(brand), 0));
          }
        }
      }
      assert forall b :: b in brandDomains ==> !IsLookalike(target, {b});
      if IsLookalike(target, brandDomains) {
        var b :| b in brandDomains && (Embeds(target, b) || exists d: nat :: Squats(target, b, d));
        assert b in {b};
        assert IsLookalike(target, {b});
        assert false;
      }
      return None;
    }

    /** The first of the names that is a lookalike. */
    method FirstLookalike(domains: seq<string>) returns (found: Option<(string, string, nat)>)
      ensures found.None? <==> forall i :: 0 <= i < |domains| ==> !IsLookalike(domains[i], brandDomains)
      ensures found.Some? ==>
              && (exists i :: 0 <= i < |domains| && found.value.0 == domains[i]
                           && forall k :: 0 <= k < i ==> !IsLookalike(domains[k], brandDomains))
              && (exists brand :: brand in brandDomains && found.value.1 == Clean(brand)
                               && Explains(found.value.0, brand, found.value.2))
    {
      for i := 0 to |domains|
        invariant forall k :: 0 <= k < i ==> !IsLookalike(domains[k], brandDomains)
      {
        var hit := IsLookalikeDomain(domains[i]);
        if hit.Some? {
          return Some((domains[i], hit.value.0, hit.value.1));
        }
      }
      return None;
    }

    /**
     Raises at most one alert, for the first name of the certificate that is a lookalike.  The
     common name is appended to the list in the caller's dictionary, if that has one.
     */
    method ProcessCtLogEntry(cert: CertData) returns (alert: Option<Alert>)
      modifies this`suspiciousCerts, cert`domains
      ensures cert.domains == if old(cert.domains).Some? then Some(old(cert.Names())) else None
      ensures var names := old(cert.Names());
              && (alert.None? <==> forall i :: 0 <= i < |names| ==> !IsLookalike(names[i], brandDomains))
              && (alert.None? ==> suspiciousCerts == old(suspiciousCerts))
              && (alert.Some? ==>
                  && suspiciousCerts == old(suspiciousCerts) + [alert.value]
                  && (exists i :: 0 <= i < |names| && alert.value.domain == names[i]
                               && forall k :: 0 <= k < i ==> !IsLookalike(names[k], brandDomains))
                  && (exists brand :: brand in brandDomains && alert.value.brand == Clean(brand)
                                   && Explains(alert.value.domain, brand, alert.value.distance))
                  && alert.value.issuer == OrElse(cert.issuer, "Unknown CA")
                  && alert.value.serialNumber == OrElse(cert.serialNumber, "")
                  && alert.value.timestamp == cert.timestamp)
    {
      var names := cert.Names();
      if cert.domains.Some? {
        cert.domains := Some(names);
      }
      var found := FirstLookalike(names);
      if found.None? {
        return None;
      }
      var (domain, brand, distance) := found.value;
      alert := Some(Alert(domain, brand, distance, OrElse(cert.issuer, "Unknown CA"), OrElse(cert.serialNumber, ""),
                          cert.timestamp));
      suspiciousCerts := suspiciousCerts + [alert.value];
    }
  }

  /**
   A name that is not the brand's own is a lookalike exactly when its first label contains the
   brand's, or is one or two edits away from it and the brand's has more than three characters.
   */
  lemma LookalikeIff(target: string, brand: string, d: nat)
    requires IsEditDistance(d, BaseName(target), BaseName(brand))
    ensures IsLookalike(target, {brand}) <==>
            Clean(target) != Clean(brand) &&
            (Contains(BaseName(target), BaseName(brand)) || (d in {1, 2} && |BaseName(brand)| >= 4))
  {
    DistanceIsUnique(BaseName(target), BaseName(brand), d);
    assert Squats(target, brand, d) || !(exists e: nat :: Squats(target, brand, e));
    assert brand in {brand};
  }

  /** The first label of a name is what precedes its first dot, in lower case and without white space around it. */
  lemma BaseNameIsRead(left: string, base: string, rest: string, right: string)
    requires Only(left, IsSpace) && Only(right, IsSpace) && '.' !in base && rest != ""
    requires (base == "" || !IsSpace(base[0])) && !IsSpace(rest[|rest| - 1])
    ensures BaseName(left + (base + ['.'] + rest) + right) == Lower(base)
  {
    var name := base + ['.'] + rest;
    assert Lower(left + name + right) == Lower(left) + Lower(name) + Lower(right);
    assert Only(Lower(left), IsSpace) && Only(Lower(right), IsSpace);
    StripOf(Lower(left), Lower(name), Lower(right), IsSpace);
    assert Lower(name) == Lower(base) + ['.'] + Lower(rest);
    PartitionOf(Lower(base), '.', Lower(rest));
  }
}
