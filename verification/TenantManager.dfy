/** Tenants and the index of their domains: multi_tenancy/tenant_manager.py. */
module TenantManagers {
  import opened Text

  datatype Tenant = Tenant(id: string, domains: seq<string>, settings: map<string, string>)

  /** The registered tenants, and for each claimed domain the id of the tenant that claimed it last. */
  datatype Directory = Directory(tenants: map<string, Tenant>, domainMap: map<string, string>)

  const EMPTY := Directory(map[], map[])

  function Lowered(domains: seq<string>): (r: seq<string>)
    ensures |r| == |domains|
  {
    seq(|domains|, k requires 0 <= k < |domains| => Lower(domains[k]))
  }

  function Claim(m: map<string, string>, domains: seq<string>, id: string): map<string, string> {
    if domains == [] then m else Claim(m, domains[..|domains| - 1], id)[domains[|domains| - 1] := id]
  }

  function Without(m: map<string, string>, d: string, id: string): map<string, string> {
    if d in m && m[d] == id then m - {d} else m
  }

  function Disclaim(m: map<string, string>, domains: seq<string>, id: string): map<string, string> {
    if domains == [] then m else Without(Disclaim(m, domains[..|domains| - 1], id), domains[|domains| - 1], id)
  }

  /** `changes` touches only the settings a tenant has, and a missing value leaves a setting alone. */
  function Changed(settings: map<string, string>, changes: map<string, Option<string>>): map<string, string> {
    map key | key in settings :: if key in changes && changes[key].Some? then changes[key].value else settings[key]
  }

  /** An update touches the settings it names and the tenant has, and no other; it adds none. */
  lemma SettingsAreChanged(settings: map<string, string>, key: string, value: string, other: string)
    ensures key in settings ==> Changed(settings, map[key := Some(value)]) == settings[key := value]
    ensures key !in settings ==> Changed(settings, map[key := Some(value)]) == settings
    ensures Changed(settings, map[other := None]) == settings
  {
  }

  function Created(dir: Directory, id: string, domains: seq<string>, settings: map<string, string>): Directory {
    Directory(dir.tenants[id := Tenant(id, Lowered(domains), settings)], Claim(dir.domainMap, Lowered(domains), id))
  }

  function Redomained(dir: Directory, id: string, domains: Option<seq<string>>): Directory
    requires id in dir.tenants
  {
    if domains.None? then dir
    else Directory(dir.tenants[id := dir.tenants[id].(domains := Lowered(domains.value))],
                   Claim(Disclaim(dir.domainMap, dir.tenants[id].domains, id), Lowered(domains.value), id))
  }

  function Updated(dir: Directory, id: string, domains: Option<seq<string>>, changes: map<string, Option<string>>)
    : Directory
    requires id in dir.tenants
  {
    var moved := Redomained(dir, id, domains);
    var tenant := moved.tenants[id];
    moved.(tenants := moved.tenants[id := tenant.(settings := Changed(tenant.settings, changes))])
  }

  function Deprovisioned(dir: Directory, id: string): Directory
    requires id in dir.tenants
  {
    Directory(dir.tenants - {id}, Disclaim(dir.domainMap, dir.tenants[id].domains, id))
  }

  // ---------- Lookup ----------

  /** The domain of an address or of a bare name, with white space and letter case removed. */
  function NameOf(domain: string): string {
    AfterLast(Strip(Lower(domain)), '@')
  }

  /** The name with its first label removed. */
  function Parent(name: string): string {
    After(name, '.')
  }

  predicate HasParent(name: string) {
    '.' in name && '.' in Parent(name)
  }

  function Owner(m: map<string, string>, d: string): Option<string> {
    if d in m then Some(m[d]) else None
  }

  /** An empty id counts as no owner. */
  predicate Named(owner: Option<string>) {
    owner.Some? && owner.value != ""
  }

  /** The id that answers for a name: the owner of the name itself, or else of its parent. */
  function Responsible(m: map<string, string>, name: string): Option<string> {
    if Named(Owner(m, name)) then Owner(m, name)
    else if HasParent(name) && Named(Owner(m, Parent(name))) then Owner(m, Parent(name))
    else None
  }

  function Find(tenants: map<string, Tenant>, id: string): Option<Tenant> {
    if id in tenants then Some(tenants[id]) else None
  }

  class TenantManager {
    var tenants: map<string, Tenant>
    var domainMap: map<string, string>

    ghost function View(): Directory
      reads this
    {
      Directory(tenants, domainMap)
    }

    constructor ()
      ensures View() == EMPTY
    {
      tenants, domainMap := map[], map[];
    }

    method LowerAll(domains: seq<string>) returns (r: seq<string>)
      ensures r == Lowered(domains)
    {
      r := [];
      for k := 0 to |domains|
        invariant r == Lowered(domains)[..k]
      {
        r := r + [Lower(domains[k])];
      }
    }

    method ClaimAll(domains: seq<string>, id: string)
      modifies this`domainMap
      ensures domainMap == Claim(old(domainMap), domains, id)
    {
      for k := 0 to |domains|
        invariant domainMap == Claim(old(domainMap), domains[..k], id)
      {
        assert domains[..k + 1][..k] == domains[..k];
        domainMap := domainMap[domains[k] := id];
      }
      assert domains[..|domains|] == domains;
    }

    /** Deletes the entries of a tenant for its own domains; a domain claimed by another stays. */
    method DisclaimAll(domains: seq<string>, id: string)
      modifies this`domainMap
      ensures domainMap == Disclaim(old(domainMap), domains, id)
    {
      for k := 0 to |domains|
        invariant domainMap == Disclaim(old(domainMap), domains[..k], id)
      {
        assert domains[..k + 1][..k] == domains[..k];
        if domains[k] in domainMap && domainMap[domains[k]] == id {
          domainMap := domainMap - {domains[k]};
        }
      }
      assert domains[..|domains|] == domains;
    }

    /** Not `ok` when the id is taken. */
    method CreateTenant(id: string, domains: seq<string>, settings: map<string, string>) returns (ok: bool)
      modifies this
      ensures ok <==> id !in old(tenants)
      ensures View() == if ok then Created(old(View()), id, domains, settings) else old(View())
    {
      if id in tenants {
        return false;
      }
      var lowered := LowerAll(domains);
      tenants := tenants[id := Tenant(id, lowered, settings)];
      ClaimAll(lowered, id);
      return true;
    }

    method ChangeSettings(settings: map<string, string>, changes: map<string, Option<string>>)
      returns (r: map<string, string>)
      ensures r == Changed(settings, changes)
    {
      r := settings;
      var rest := changes.Keys;
      while rest != {}
        invariant rest <= changes.Keys && r.Keys == settings.Keys
        invariant forall key :: key in settings ==>
                                  r[key] == if key in changes.Keys - rest && changes[key].Some? then changes[key].value
                                            else settings[key]
        decreases rest
      {
        var key :| key in rest;
        rest := rest - {key};
        if key in r && changes[key].Some? {
          r := r[key := changes[key].value];
        }
      }
    }

    /** Not `ok` when there is no such tenant. */
    method UpdateTenant(id: string, domains: Option<seq<string>>, changes: map<string, Option<string>>)
      returns (ok: bool)
      modifies this
      ensures ok <==> id in old(tenants)
      ensures View() == if ok then Updated(old(View()), id, domains, changes) else old(View())
    {
      if id !in tenants {
        return false;
      }
      if domains.Some? {
        var lowered := LowerAll(domains.value);
        DisclaimAll(tenants[id].domains, id);
        tenants := tenants[id := tenants[id].(domains := lowered)];
        ClaimAll(lowered, id);
      }
      var settings := ChangeSettings(tenants[id].settings, changes);
      tenants := tenants[id := tenants[id].(settings := settings)];
      return true;
    }

    method DeprovisionTenant(id: string) returns (ok: bool)
      modifies this
      ensures ok <==> id in old(tenants)
      ensures View() == if ok then Deprovisioned(old(View()), id) else old(View())
    {
      if id !in tenants {
        return false;
      }
      DisclaimAll(tenants[id].domains, id);
      tenants := tenants - {id};
      return true;
    }

    method GetTenantByDomain(domain: string) returns (tenant: Option<Tenant>)
      ensures var id := Responsible(domainMap, NameOf(domain));
              tenant == if id.Some? then Find(tenants, id.value) else None
    {
      var name := AfterLast(Strip(Lower(domain)), '@');
      if name in domainMap && domainMap[name] != "" {
        return Find(tenants, domainMap[name]);
      }
      if '.' in name && '.' in After(name, '.') {
        var parent := After(name, '.');
        if parent in domainMap && domainMap[parent] != "" {
          return Find(tenants, domainMap[parent]);
        }
      }
      return None;
    }
  }

  // ---------- The index under the three operations ----------

  lemma {:induction false} ClaimIsExact(m: map<string, string>, domains: seq<string>, id: string, d: string)
    ensures Owner(Claim(m, domains, id), d) == if d in domains then Some(id) else Owner(m, d)
  {
    if domains != [] {
      var rest := domains[..|domains| - 1];
      ClaimIsExact(m, rest, id, d);
      assert domains == rest + [domains[|domains| - 1]];
    }
  }

  lemma {:induction false} DisclaimIsExact(m: map<string, string>, domains: seq<string>, id: string, d: string)
    ensures Owner(Disclaim(m, domains, id), d) == if d in domains && Owner(m, d) == Some(id) then None else Owner(m, d)
  {
    if domains != [] {
      var rest := domains[..|domains| - 1];
      DisclaimIsExact(m, rest, id, d);
      assert domains == rest + [domains[|domains| - 1]];
    }
  }

  /** Every entry points to a registered tenant that lists the domain. */
  ghost predicate Indexed(dir: Directory) {
    && (forall id :: id in dir.tenants ==> dir.tenants[id].id == id)
    && (forall d :: d in dir.domainMap ==> PointsHome(dir, d))
  }

  predicate PointsHome(dir: Directory, d: string)
    requires d in dir.domainMap
  {
    dir.domainMap[d] in dir.tenants && d in dir.tenants[dir.domainMap[d]].domains
  }

  datatype Op =
    | Create(id: string, domains: seq<string>, settings: map<string, string>)
    | Update(id: string, newDomains: Option<seq<string>>, changes: map<string, Option<string>>)
    | Deprovision(id: string)

  function Apply(dir: Directory, op: Op): Directory {
    match op
    case Create(id, domains, settings) => if id in dir.tenants then dir else Created(dir, id, domains, settings)
    case Update(id, domains, changes) => if id in dir.tenants then Updated(dir, id, domains, changes) else dir
    case Deprovision(id) => if id in dir.tenants then Deprovisioned(dir, id) else dir
  }

  function RunOps(ops: seq<Op>): Directory {
    if ops == [] then EMPTY else Apply(RunOps(ops[..|ops| - 1]), ops[|ops| - 1])
  }

  /** What one operation does to the owner of one domain, given whether its tenant is registered. */
  function NextHolder(op: Op, registered: bool, d: string, holder: Option<string>): Option<string> {
    match op
    case Create(id, domains, _) => if !registered && d in Lowered(domains) then Some(id) else holder
    case Update(id, domains, _) =>
      if !registered || domains.None? then holder
      else if d in Lowered(domains.value) then Some(id)
      else if holder == Some(id) then None else holder
    case Deprovision(id) => if registered && holder == Some(id) then None else holder
  }

  lemma OwnerAfter(dir: Directory, op: Op, d: string)
    requires Indexed(dir)
    ensures Owner(Apply(dir, op).domainMap, d) == NextHolder(op, op.id in dir.tenants, d, Owner(dir.domainMap, d))
  {
    if op.id in dir.tenants {
      assert d in dir.domainMap ==> PointsHome(dir, d);
      DisclaimIsExact(dir.domainMap, dir.tenants[op.id].domains, op.id, d);
    }
    match op
    case Create(id, domains, _) => ClaimIsExact(dir.domainMap, Lowered(domains), id, d);
    case Update(id, domains, _) =>
      if id in dir.tenants && domains.Some? {
        ClaimIsExact(Disclaim(dir.domainMap, dir.tenants[id].domains, id), Lowered(domains.value), id, d);
      }
    case Deprovision(_) =>
  }

  lemma ApplyKeepsIndex(dir: Directory, op: Op)
    requires Indexed(dir)
    ensures Indexed(Apply(dir, op))
  {
    var after := Apply(dir, op);
    forall d | d in after.domainMap
      ensures PointsHome(after, d)
    {
      OwnerAfter(dir, op, d);
      assert d in dir.domainMap ==> PointsHome(dir, d);
    }
  }

  lemma {:induction false} RunKeepsIndex(ops: seq<Op>)
    ensures Indexed(RunOps(ops))
  {
    if ops != [] {
      RunKeepsIndex(ops[..|ops| - 1]);
      ApplyKeepsIndex(RunOps(ops[..|ops| - 1]), ops[|ops| - 1]);
    }
  }

  // ---------- What every run promises ----------

  /** The tenants after a run: created and not deprovisioned since. */
  predicate Registered(ops: seq<Op>, id: string) {
    if ops == [] then false
    else
      var last := ops[|ops| - 1];
      if last.id == id && !last.Update? then last.Create? else Registered(ops[..|ops| - 1], id)
  }

  /** The holder of one domain after a run, followed on its own, without the index. */
  function Holder(ops: seq<Op>, d: string): Option<string> {
    if ops == [] then None
    else
      var before, last := ops[..|ops| - 1], ops[|ops| - 1];
      NextHolder(last, Registered(before, last.id), d, Holder(before, d))
  }

  lemma {:induction false} RegisteredIsExact(ops: seq<Op>, id: string)
    ensures id in RunOps(ops).tenants <==> Registered(ops, id)
  {
    if ops != [] {
      RegisteredIsExact(ops[..|ops| - 1], id);
    }
  }

  /** The index, kept by loops over whole domain lists, says of each domain what its own history says. */
  lemma {:induction false} IndexIsHistory(ops: seq<Op>, d: string)
    ensures Owner(RunOps(ops).domainMap, d) == Holder(ops, d)
  {
    if ops != [] {
      var before, last := ops[..|ops| - 1], ops[|ops| - 1];
      IndexIsHistory(before, d);
      RunKeepsIndex(before);
      RegisteredIsExact(before, last.id);
      OwnerAfter(RunOps(before), last, d);
    }
  }

  /** A lookup finds a registered tenant that lists the name, or lists its parent. */
  lemma LookupIsHome(ops: seq<Op>, domain: string)
    ensures var dir, name := RunOps(ops), NameOf(domain);
            var id := Responsible(dir.domainMap, name);
            id.Some? ==>
              && id.value != "" && Registered(ops, id.value) && id.value in dir.tenants
              && dir.tenants[id.value].id == id.value
              && var listed := dir.tenants[id.value].domains;
                 name in listed || (HasParent(name) && Parent(name) in listed)
  {
    RunKeepsIndex(ops);
    var dir, name := RunOps(ops), NameOf(domain);
    assert name in dir.domainMap ==> PointsHome(dir, name);
    assert Parent(name) in dir.domainMap ==> PointsHome(dir, Parent(name));
    var id := Responsible(dir.domainMap, name);
    if id.Some? {
      RegisteredIsExact(ops, id.value);
    }
  }

  lemma {:induction false} StaysUnregistered(ops: seq<Op>, more: seq<Op>, id: string)
    requires !Registered(ops, id)
    requires forall k :: 0 <= k < |more| ==> !(more[k].Create? && more[k].id == id)
    ensures !Registered(ops + more, id)
  {
    if more == [] {
      assert ops + more == ops;
    } else {
      StaysUnregistered(ops, more[..|more| - 1], id);
      assert (ops + more)[..|ops + more| - 1] == ops + more[..|more| - 1];
    }
  }

  /** Once offboarded, a tenant is not found again under any name until it is created anew. */
  lemma OffboardedIsNeverFound(ops: seq<Op>, id: string, more: seq<Op>, domain: string)
    requires forall k :: 0 <= k < |more| ==> !(more[k].Create? && more[k].id == id)
    ensures Responsible(RunOps(ops + [Deprovision(id)] + more).domainMap, NameOf(domain)) != Some(id)
  {
    var offboarded := ops + [Deprovision(id)];
    assert offboarded[..|offboarded| - 1] == ops;
    StaysUnregistered(offboarded, more, id);
    LookupIsHome(offboarded + more, domain);
  }

  // ---------- Claims ----------

  /**
   A name just claimed answers to its new tenant, in any letter case, in an address or with
   white space around it, whoever held it before; an empty id is stored but never answers.
   */
  lemma ClaimIsFound(ops: seq<Op>, id: string, domains: seq<string>, settings: map<string, string>, domain: string)
    requires !Registered(ops, id) && NameOf(domain) in Lowered(domains)
    ensures Responsible(RunOps(ops + [Create(id, domains, settings)]).domainMap, NameOf(domain)) == Some(id)
            <==> id != ""
  {
    var run := ops + [Create(id, domains, settings)];
    assert run[..|run| - 1] == ops;
    IndexIsHistory(run, NameOf(domain));
  }

  /** A domain just claimed is found in any letter case, alone or in an address. */
  lemma ClaimIsFoundInAnyCase(ops: seq<Op>, id: string, domains: seq<string>, settings: map<string, string>, k: nat,
                              user: string, asked: string)
    requires !Registered(ops, id) && id != "" && k < |domains| && Lower(asked) == Lower(domains[k])
    requires '@' !in asked && asked != "" && Tight(asked, IsSpace) && user != "" && !IsSpace(user[0])
    ensures var m := RunOps(ops + [Create(id, domains, settings)]).domainMap;
            Responsible(m, NameOf(asked)) == Responsible(m, NameOf(user + ['@'] + asked)) == Some(id)
  {
    NameIsRead("", user, asked, "");
    assert "" + asked + "" == asked && "" + (user + ['@'] + asked) + "" == user + ['@'] + asked;
    assert Lowered(domains)[k] == Lower(asked);
    ClaimIsFound(ops, id, domains, settings, asked);
  }

  /**
   A name below a claimed domain answers to the domain's owner if nobody has the name itself,
   provided that the domain has a dot.
   */
  lemma ParentAnswers(ops: seq<Op>, id: string, host: string, domain: string)
    requires Holder(ops, domain) == Some(id) && id != "" && '.' !in host && Holder(ops, host + ['.'] + domain) == None
    ensures Responsible(RunOps(ops).domainMap, host + ['.'] + domain) == if '.' in domain then Some(id) else None
  {
    var name := host + ['.'] + domain;
    PartitionOf(host, '.', domain);
    assert name[|host|] == '.';
    IndexIsHistory(ops, domain);
    IndexIsHistory(ops, name);
  }

  /** The name looked up is what follows the last @, in lower case and without white space around it. */
  lemma NameIsRead(left: string, user: string, domain: string, right: string)
    requires Only(left, IsSpace) && Only(right, IsSpace) && '@' !in domain && domain != "" && Tight(domain, IsSpace)
    ensures NameOf(left + domain + right) == Lower(domain)
    ensures user != "" && !IsSpace(user[0]) ==> NameOf(left + (user + ['@'] + domain) + right) == Lower(domain)
  {
    LoweredTight(left, domain, right);
    AfterLastOf("", '@', Lower(domain));
    if user != "" && !IsSpace(user[0]) {
      var address := user + ['@'] + domain;
      LoweredTight(left, address, right);
      assert Lower(address) == Lower(user) + ['@'] + Lower(domain);
      AfterLastOf(Lower(user), '@', Lower(domain));
    }
  }

  lemma LoweredTight(left: string, s: string, right: string)
    requires Only(left, IsSpace) && Only(right, IsSpace) && Tight(s, IsSpace)
    ensures Strip(Lower(left + s + right)) == Lower(s)
  {
    assert Lower(left + s + right) == Lower(left) + Lower(s) + Lower(right);
    assert Only(Lower(left), IsSpace) && Only(Lower(right), IsSpace);
    StripOf(Lower(left), Lower(s), Lower(right), IsSpace);
  }

  // ---------- When a listed domain is in the index ----------

  /** Every domain that a registered tenant lists is mapped to somebody. */
  ghost predicate Complete(dir: Directory) {
    forall id, d :: id in dir.tenants && d in dir.tenants[id].domains ==> d in dir.domainMap
  }

  /** The operation takes its own entry for d out of the index. */
  predicate GivesUp(dir: Directory, op: Op, d: string) {
    && op.id in dir.tenants && Owner(dir.domainMap, d) == Some(op.id)
    && (op.Deprovision? || (op.Update? && op.newDomains.Some? && d !in Lowered(op.newDomains.value)))
  }

  ghost predicate ListedByAnother(dir: Directory, id: string, d: string) {
    exists other :: other in dir.tenants && other != id && d in dir.tenants[other].domains
  }

  /** The operation gives up a domain that another registered tenant lists too. */
  ghost predicate Orphans(dir: Directory, op: Op) {
    exists d :: GivesUp(dir, op, d) && ListedByAnother(dir, op.id, d)
  }

  lemma ListingAfter(dir: Directory, op: Op, id: string, d: string)
    requires Indexed(dir) && Complete(dir)
    requires id in Apply(dir, op).tenants && d in Apply(dir, op).tenants[id].domains
    ensures d in Apply(dir, op).domainMap || (GivesUp(dir, op, d) && ListedByAnother(dir, op.id, d))
  {
    OwnerAfter(dir, op, d);
    if id != op.id {
      assert id in dir.tenants && d in dir.tenants[id].domains;
    }
  }

  lemma OrphanAfter(dir: Directory, op: Op, d: string)
    requires Indexed(dir) && GivesUp(dir, op, d) && ListedByAnother(dir, op.id, d)
    ensures !Complete(Apply(dir, op))
  {
    OwnerAfter(dir, op, d);
    var other :| other in dir.tenants && other != op.id && d in dir.tenants[other].domains;
    assert other in Apply(dir, op).tenants && d in Apply(dir, op).tenants[other].domains;
  }

  /** An operation keeps every listed domain in the index exactly when it gives up none that another tenant lists. */
  lemma CompleteIffNoOrphan(dir: Directory, op: Op)
    requires Indexed(dir) && Complete(dir)
    ensures Complete(Apply(dir, op)) <==> !Orphans(dir, op)
  {
    if Orphans(dir, op) {
      var d :| GivesUp(dir, op, d) && ListedByAnother(dir, op.id, d);
      OrphanAfter(dir, op, d);
    } else {
      var after := Apply(dir, op);
      forall id, d | id in after.tenants && d in after.tenants[id].domains
        ensures d in after.domainMap
      {
        ListingAfter(dir, op, id, d);
      }
    }
  }

  /** Some operation of the run orphans a domain in the state it meets. */
  ghost predicate EverOrphans(ops: seq<Op>) {
    ops != [] && (EverOrphans(ops[..|ops| - 1]) || Orphans(RunOps(ops[..|ops| - 1]), ops[|ops| - 1]))
  }

  ghost predicate AlwaysComplete(ops: seq<Op>) {
    Complete(RunOps(ops)) && (ops != [] ==> AlwaysComplete(ops[..|ops| - 1]))
  }

  /** All along a run every listed domain is in the index exactly when no operation of it orphans one. */
  lemma {:induction false} AlwaysCompleteIffNoOrphan(ops: seq<Op>)
    ensures AlwaysComplete(ops) <==> !EverOrphans(ops)
  {
    if ops != [] {
      var before := ops[..|ops| - 1];
      AlwaysCompleteIffNoOrphan(before);
      if AlwaysComplete(before) {
        RunKeepsIndex(before);
        CompleteIffNoOrphan(RunOps(before), ops[|ops| - 1]);
      }
    }
  }

  /**
   A domain taken over by another tenant is nobody's once that tenant leaves, although the first
   one still lists it.
   */
  lemma TakenDomainIsLost(ops: seq<Op>, first: string, taker: string, d: string)
    requires first in RunOps(ops).tenants && Lower(d) in RunOps(ops).tenants[first].domains && !Registered(ops, taker)
    ensures var after := RunOps(ops + [Create(taker, [d], map[]), Deprovision(taker)]);
            && first in after.tenants && Lower(d) in after.tenants[first].domains
            && Lower(d) !in after.domainMap
  {
    var taking, leaving := Create(taker, [d], map[]), Deprovision(taker);
    var run := ops + [taking, leaving];
    var before := ops + [taking];
    assert run[..|run| - 1] == before && before[..|before| - 1] == ops;
    RegisteredIsExact(ops, taker);
    assert Lowered([d])[0] == Lower(d);
    IndexIsHistory(before, Lower(d));
    IndexIsHistory(run, Lower(d));
  }
}
