/** What happens to a message after the decision: delivery/pipeline.py. */
module Delivery {
  import opened Text
  import opened QuarantineStores
  import Scorer

  type Action = Scorer.Action

  /**
   How one call of the relay ended.  Only a relay error is caught around the delivery itself, and
   every exception around the mirror; a cancellation is no Exception and is caught around neither.
   */
  datatype SendOutcome = Accepted | RelayError | OtherError | Cancelled

  datatype Send = Send(message: Bytes, sender: string, recipients: seq<string>)

  /** The relay, seen as the list of the sends attempted through it. */
  class Relay {
    var sent: seq<Send>

    constructor ()
      ensures sent == []
    {
      sent := [];
    }

    /** One send; `fate` is how it ends. */
    method Attempt(send: Send, fate: SendOutcome) returns (outcome: SendOutcome)
      modifies this
      ensures sent == old(sent) + [send] && outcome == fate
    {
      sent := sent + [send];
      return fate;
    }
  }

  datatype Stripped = Stripped(message: Bytes) | Broken(why: string)

  /** The two rewritings of a message; None when writing the tagged message raises. */
  datatype Rewriters = Rewriters(strip: Bytes -> Stripped, tag: (Bytes, int, Action, seq<string>) -> Option<Bytes>)

  /** How the calls that leave the process end; `notified` is None when the notifier raises. */
  datatype Environment = Environment(mirror: SendOutcome, main: SendOutcome, notified: Option<bool>)

  datatype Job = Job(action: Action, raw: Bytes, messageId: string, sender: string, recipients: seq<string>, score: int,
                     reasons: seq<string>, tagOnly: bool, socBcc: string)

  datatype Outcome = Relayed | RelayedModified | Quarantined | RelayFailed

  datatype Ending = Delivered(outcome: Outcome, quarantineId: string, notified: bool) | Raised

  /** The effects of one delivery. */
  datatype Plan = Plan(sends: seq<Send>, held: Option<Record>, ending: Ending)

  function ActionName(action: Action): string {
    match action
    case Forward => "forward"
    case WarnAndStrip => "warn_and_strip"
    case Quarantine => "quarantine"
  }

  function HeldRecord(job: Job, reasons: seq<string>, now: real): Record {
    Record(job.messageId, job.sender, job.recipients, job.score, ActionName(job.action), reasons, now,
           Pending, "", "", None)
  }

  function Escalated(reasons: seq<string>, why: string): seq<string> {
    reasons + ["escalated: could not apply warn_and_strip (" + why + ")"]
  }

  function HoldPlan(job: Job, reasons: seq<string>, id: string, now: real, env: Environment): Plan {
    Plan([], Some(HeldRecord(job, reasons, now)),
         if env.notified.Some? then Delivered(Quarantined, id, env.notified.value) else Raised)
  }

  function MainEnding(main: SendOutcome, good: Outcome): Ending {
    match main
    case Accepted => Delivered(good, "", false)
    case RelayError => Delivered(RelayFailed, "", false)
    case OtherError => Raised
    case Cancelled => Raised
  }

  function RelayPlan(job: Job, message: Bytes, good: Outcome, relaying: bool, env: Environment): Plan {
    if relaying then Plan([Send(message, job.sender, job.recipients)], None, MainEnding(env.main, good))
    else Plan([], None, Delivered(good, "", false))
  }

  predicate Mirrors(job: Job, relaying: bool) {
    job.action.Forward? && job.socBcc != "" && relaying
  }

  function MirrorSend(job: Job): Send {
    Send(job.raw, job.sender, [job.socBcc])
  }

  /** The task is cancelled while it mirrors the message. */
  predicate CutShort(job: Job, relaying: bool, env: Environment) {
    Mirrors(job, relaying) && env.mirror.Cancelled?
  }

  function PlanOf(job: Job, relaying: bool, id: string, now: real, rewriters: Rewriters, env: Environment): Plan {
    if job.tagOnly && !job.action.Forward? then
      var tagged := rewriters.tag(job.raw, job.score, job.action, job.reasons);
      if tagged.None? then Plan([], None, Raised) else RelayPlan(job, tagged.value, Relayed, relaying, env)
    else match job.action
      case Quarantine => HoldPlan(job, job.reasons, id, now, env)
      case WarnAndStrip => (
        match rewriters.strip(job.raw)
        case Broken(why) => HoldPlan(job, Escalated(job.reasons, why), id, now, env)
        case Stripped(message) => RelayPlan(job, message, RelayedModified, relaying, env))
      case Forward =>
        var main := RelayPlan(job, job.raw, Relayed, relaying, env);
        if CutShort(job, relaying, env) then Plan([MirrorSend(job)], None, Raised)
        else if Mirrors(job, relaying) then main.(sends := [MirrorSend(job)] + main.sends)
        else main
  }

  /** The files of the store after a plan has been carried out. */
  function FilesAfter(f: Files, c: Cipher, id: string, raw: Bytes, held: Option<Record>): Files {
    if held.Some? then WithRecord(WithMessage(f, id, c.encrypt(raw)), id, held.value) else f
  }

  method Hold(job: Job, reasons: seq<string>, store: QuarantineStore, id: string, now: real, env: Environment)
    returns (ending: Ending)
    modifies store
    ensures var p := HoldPlan(job, reasons, id, now, env);
            ending == p.ending && store.View() == FilesAfter(old(store.View()), store.cipher, id, job.raw, p.held)
  {
    store.Store(id, job.raw, HeldRecord(job, reasons, now));
    if env.notified.None? {
      return Raised;
    }
    return Delivered(Quarantined, id, env.notified.value);
  }

  method RelayMain(job: Job, message: Bytes, good: Outcome, relay: Relay?, env: Environment) returns (ending: Ending)
    modifies relay
    ensures var p := RelayPlan(job, message, good, relay != null, env);
            ending == p.ending && (relay != null ==> relay.sent == old(relay.sent) + p.sends)
  {
    if relay == null {
      return Delivered(good, "", false);
    }
    var outcome := relay.Attempt(Send(message, job.sender, job.recipients), env.main);
    match outcome
    case RelayError => return Delivered(RelayFailed, "", false);
    case OtherError => return Raised;
    case Cancelled => return Raised;
    case Accepted => return Delivered(good, "", false);
  }

  method Deliver(job: Job, relay: Relay?, store: QuarantineStore, id: string, now: real, rewriters: Rewriters,
                 env: Environment)
    returns (ending: Ending)
    modifies relay, store
    ensures var p := PlanOf(job, relay != null, id, now, rewriters, env);
            && ending == p.ending
            && (relay != null ==> relay.sent == old(relay.sent) + p.sends)
            && store.View() == FilesAfter(old(store.View()), store.cipher, id, job.raw, p.held)
  {
    if job.tagOnly && !job.action.Forward? {
      var tagged := rewriters.tag(job.raw, job.score, job.action, job.reasons);
      if tagged.None? {
        return Raised;
      }
      ending := RelayMain(job, tagged.value, Relayed, relay, env);
      return;
    }
    if job.action.Quarantine? {
      ending := Hold(job, job.reasons, store, id, now, env);
      return;
    }
    if job.action.WarnAndStrip? {
      match rewriters.strip(job.raw) {
        case Broken(why) => ending := Hold(job, Escalated(job.reasons, why), store, id, now, env);
        case Stripped(message) => ending := RelayMain(job, message, RelayedModified, relay, env);
      }
      return;
    }
    if job.socBcc != "" && relay != null {
      var outcome := relay.Attempt(MirrorSend(job), env.mirror);
      match outcome {
        case Cancelled => return Raised;
        case RelayError =>
        case OtherError =>
        case Accepted =>
      }
    }
    ending := RelayMain(job, job.raw, Relayed, relay, env);
  }

  // ---------- No blind drop ----------

  /** One attempt at the recipients, after nothing but a mirror. */
  ghost predicate RelaysOnce(job: Job, p: Plan) {
    && p.held.None? && p.sends != []
    && p.sends[|p.sends| - 1].sender == job.sender && p.sends[|p.sends| - 1].recipients == job.recipients
    && p.sends[..|p.sends| - 1] == if Mirrors(job, true) then [MirrorSend(job)] else []
  }

  /** Nothing sent, and a pending record of the message. */
  ghost predicate Holds(job: Job, p: Plan) {
    && p.sends == [] && p.held.Some?
    && p.held.value.status.Pending? && p.held.value.envelopeTo == job.recipients
    && p.held.value.envelopeFrom == job.sender
    && job.reasons <= p.held.value.reasons
  }

  ghost predicate RunsDry(p: Plan) {
    p.sends == [] && p.held.None? && p.ending.Delivered?
      && (p.ending.outcome.Relayed? || p.ending.outcome.RelayedModified?)
  }

  predicate MustHold(job: Job, rewriters: Rewriters) {
    job.action.Quarantine? || (job.action.WarnAndStrip? && rewriters.strip(job.raw).Broken?)
  }

  /** Nothing but a mirror was attempted, and the caller gets no result. */
  ghost predicate IsCut(job: Job, p: Plan) {
    p.sends == [MirrorSend(job)] && p.held.None? && p.ending.Raised?
  }

  /**
   Outside tag-only mode a message is held exactly when it must be; every other message is
   attempted once at its recipients when there is a relay and the task is not cancelled while
   mirroring, and runs dry when there is no relay.
   */
  lemma NoBlindDrop(job: Job, relaying: bool, id: string, now: real, rewriters: Rewriters, env: Environment)
    requires !job.tagOnly
    ensures var p := PlanOf(job, relaying, id, now, rewriters, env);
            && (Holds(job, p) <==> MustHold(job, rewriters))
            && (RelaysOnce(job, p) <==> !MustHold(job, rewriters) && relaying && !CutShort(job, relaying, env))
            && (CutShort(job, relaying, env) ==> IsCut(job, p))
            && (RunsDry(p) <==> !MustHold(job, rewriters) && !relaying)
  {
    var p := PlanOf(job, relaying, id, now, rewriters, env);
    if MustHold(job, rewriters) {
      assert job.reasons <= p.held.value.reasons;
    } else if Mirrors(job, relaying) && !env.mirror.Cancelled? {
      assert p.sends[..1] == [MirrorSend(job)];
    }
  }

  /** What is kept about a held message: all about its envelope, why it is held, and that nobody has decided yet. */
  lemma HeldRecordDescribes(job: Job, relaying: bool, id: string, now: real, rewriters: Rewriters, env: Environment)
    requires PlanOf(job, relaying, id, now, rewriters, env).held.Some?
    ensures job.action.Quarantine? || (job.action.WarnAndStrip? && rewriters.strip(job.raw).Broken?)
    ensures var r := PlanOf(job, relaying, id, now, rewriters, env).held.value;
            && r.messageId == job.messageId && r.envelopeFrom == job.sender && r.envelopeTo == job.recipients
            && r.totalScore == job.score && r.quarantinedAt == now && r.status.Pending? && r.resolvedAt == None
            && match job.action
               case Quarantine => r.action == "quarantine" && r.reasons == job.reasons
               case _ =>
                 var why := "escalated: could not apply warn_and_strip (" + rewriters.strip(job.raw).why + ")";
                 r.action == "warn_and_strip" && r.reasons == job.reasons + [why]
  {
  }

  /** In tag-only mode nothing is held: the tagged message goes to the recipients, or writing it raised. */
  lemma TagOnlyHoldsNothing(job: Job, relaying: bool, id: string, now: real, rewriters: Rewriters, env: Environment)
    requires job.tagOnly
    ensures var p := PlanOf(job, relaying, id, now, rewriters, env);
            p.held.None? &&
            (!job.action.Forward? ==>
               match rewriters.tag(job.raw, job.score, job.action, job.reasons)
               case None => p.sends == [] && p.ending.Raised?
               case Some(tagged) => p.sends == if relaying then [Send(tagged, job.sender, job.recipients)] else [])
  {
  }

  /** What a send may contain: cleared mail as it came, other mail only as its rewriter made it. */
  ghost predicate MayCarry(job: Job, rewriters: Rewriters, message: Bytes) {
    if job.action.Forward? then message == job.raw
    else if job.tagOnly then rewriters.tag(job.raw, job.score, job.action, job.reasons) == Some(message)
    else job.action.WarnAndStrip? && rewriters.strip(job.raw) == Stripped(message)
  }

  /** A message that was not cleared is never relayed unmodified, nor mirrored. */
  lemma NeverRelayedUnmodified(job: Job, relaying: bool, id: string, now: real, rewriters: Rewriters, env: Environment,
                               s: Send)
    requires s in PlanOf(job, relaying, id, now, rewriters, env).sends
    ensures relaying && MayCarry(job, rewriters, s.message) && s.sender == job.sender
    ensures s.recipients == job.recipients || (Mirrors(job, relaying) && s.recipients == [job.socBcc])
  {
  }

  /** The report says what happened: held, refused by the relay, or taken by it (or a dry run). */
  lemma ReportIsTrue(job: Job, relaying: bool, id: string, now: real, rewriters: Rewriters, env: Environment)
    ensures var p := PlanOf(job, relaying, id, now, rewriters, env);
            p.ending.Delivered? ==>
              && (p.ending.outcome.Quarantined? <==> p.held.Some?)
              && (p.ending.outcome.RelayFailed? <==> p.sends != [] && env.main.RelayError?)
              && (p.ending.outcome.Relayed? || p.ending.outcome.RelayedModified? <==>
                  p.held.None? && (relaying ==> p.sends != [] && env.main.Accepted?))
  {
  }

  /**
   A mirror that is refused or fails changes nothing else.  The main send is attempted exactly
   when the mirror is not cancelled; a cancelled one leaves the message neither sent nor held.
   */
  lemma MirrorHarmsOnlyWhenCancelled(job: Job, id: string, now: real, rewriters: Rewriters, env: Environment)
    requires Mirrors(job, true)
    ensures var p := PlanOf(job, true, id, now, rewriters, env);
            var q := PlanOf(job.(socBcc := ""), true, id, now, rewriters, env);
            && q.sends == [Send(job.raw, job.sender, job.recipients)]
            && (p == q.(sends := [MirrorSend(job)] + q.sends) <==> !env.mirror.Cancelled?)
            && (env.mirror.Cancelled? ==> IsCut(job, p))
  {
    assert |[MirrorSend(job)] + PlanOf(job.(socBcc := ""), true, id, now, rewriters, env).sends| == 2;
  }

  /** Holding a message is a proper pair of steps of the quarantine, after which its bytes can be read back. */
  lemma HoldIsAQuarantineRun(c: Cipher, r: Run, job: Job, relaying: bool, id: string, now: real, rewriters: Rewriters,
                             env: Environment)
    requires Faithful(c) && Consistent(c, r) && id !in r.originals
    requires PlanOf(job, relaying, id, now, rewriters, env).held.Some?
    ensures var held := PlanOf(job, relaying, id, now, rewriters, env).held;
            var after := Stored(c, r, id, job.raw, held.value);
            && after.files == FilesAfter(r.files, c, id, job.raw, held)
            && Consistent(c, after) && id in PendingIds(after.files)
            && c.decrypt(after.files.messages[id]) == job.raw
  {
    var held := PlanOf(job, relaying, id, now, rewriters, env).held.value;
    HeldPair(c, r, id, job.raw, held);
  }

  /** The quarantine after the two halves of storing one message. */
  function Stored(c: Cipher, r: Run, id: string, raw: Bytes, held: Record): Run {
    RunAll(c, r, [Begun(id, raw), Committed(id, held)])
  }

  lemma HeldPair(c: Cipher, r: Run, id: string, raw: Bytes, held: Record)
    requires Faithful(c) && Consistent(c, r) && id !in r.originals && held.status.Pending?
    ensures var after := Stored(c, r, id, raw, held);
            && after.files == FilesAfter(r.files, c, id, raw, Some(held))
            && after.originals == r.originals[id := raw] && after.committed == r.committed[id := held]
            && after.resolved == r.resolved
            && Consistent(c, after) && id in PendingIds(after.files)
            && c.decrypt(after.files.messages[id]) == raw
  {
    var first, second := Begun(id, raw), Committed(id, held);
    var r1 := Step(c, r, first);
    StepKeeps(c, r, first);
    var r2 := Step(c, r1, second);
    StepKeeps(c, r1, second);
    assert [first, second][1..] == [second];
    assert RunAll(c, r2, []) == r2;
    assert RunAll(c, r1, [second]) == RunAll(c, r2, [second][1..]);
    assert c.decrypt(c.encrypt(raw)) == raw;
  }

  // ---------- Whole runs of the gateway ----------

  /** A message that is delivered, or an item that an administrator releases or rejects. */
  datatype Happening =
    | Posted(job: Job, id: string, now: real, env: Environment)
    | Handled(itemId: string, released: bool, who: string, note: string, now: real)

  /** What is outside the process, and whether there is a relay. */
  datatype Site = Site(cipher: Cipher, rewriters: Rewriters, relaying: bool)

  datatype Ledger = Ledger(quarantine: Run, sends: seq<Send>, attempted: nat, cut: nat, dry: nat)

  function PlanAt(site: Site, h: Happening): Plan
    requires h.Posted?
  {
    PlanOf(h.job, site.relaying, h.id, h.now, site.rewriters, h.env)
  }

  function Entered(site: Site, l: Ledger, h: Happening): Ledger {
    match h
    case Handled(id, released, who, note, now) =>
      var status := if released then Released else Rejected;
      l.(quarantine := Step(site.cipher, l.quarantine, Resolution(id, status, who, note, now)))
    case Posted(job, id, _, env) =>
      var p := PlanAt(site, h);
      var cut := CutShort(job, site.relaying, env);
      Ledger(if p.held.Some? then Stored(site.cipher, l.quarantine, id, job.raw, p.held.value) else l.quarantine,
             l.sends + p.sends,
             l.attempted + if p.sends != [] && !cut then 1 else 0,
             l.cut + if cut then 1 else 0,
             l.dry + if p.sends == [] && p.held.None? then 1 else 0)
  }

  function LedgerOf(site: Site, run: seq<Happening>): Ledger {
    if run == [] then Ledger(EMPTY, [], 0, 0, 0)
    else Entered(site, LedgerOf(site, run[..|run| - 1]), run[|run| - 1])
  }

  function CountPosted(run: seq<Happening>): nat {
    if run == [] then 0 else CountPosted(run[..|run| - 1]) + if run[|run| - 1].Posted? then 1 else 0
  }

  /** The messages whose delivery is cancelled while they are mirrored. */
  function CountCut(site: Site, run: seq<Happening>): nat {
    if run == [] then 0
    else
      var last := run[|run| - 1];
      CountCut(site, run[..|run| - 1]) + if last.Posted? && CutShort(last.job, site.relaying, last.env) then 1 else 0
  }

  lemma {:induction false} CutIsCounted(site: Site, run: seq<Happening>)
    ensures LedgerOf(site, run).cut == CountCut(site, run)
  {
    if run != [] {
      CutIsCounted(site, run[..|run| - 1]);
    }
  }

  ghost predicate HasId(run: seq<Happening>, id: string) {
    exists k :: 0 <= k < |run| && run[k].Posted? && run[k].id == id
  }

  /** A message posted after this run has a new identifier and is not in tag-only mode. */
  ghost predicate Follows(run: seq<Happening>, next: Happening) {
    next.Posted? ==> !next.job.tagOnly && !HasId(run, next.id)
  }

  ghost predicate Regular(run: seq<Happening>) {
    run == [] || (Regular(run[..|run| - 1]) && Follows(run[..|run| - 1], run[|run| - 1]))
  }

  /** The quarantine has this message, byte for byte. */
  ghost predicate Keeps(site: Site, q: Run, h: Happening)
    requires h.Posted?
  {
    h.id in q.originals && q.originals[h.id] == h.job.raw && h.id in q.committed
  }

  ghost predicate AllKept(site: Site, q: Run, run: seq<Happening>) {
    forall k :: 0 <= k < |run| && run[k].Posted? && MustHold(run[k].job, site.rewriters) ==> Keeps(site, q, run[k])
  }

  ghost predicate OnlyIdsOf(q: Run, run: seq<Happening>) {
    forall id :: id in q.originals ==> HasId(run, id)
  }

  ghost predicate Balanced(site: Site, l: Ledger, run: seq<Happening>) {
    && Consistent(site.cipher, l.quarantine) && OnlyIdsOf(l.quarantine, run) && AllKept(site, l.quarantine, run)
    && CountPosted(run) == l.attempted + |l.quarantine.committed| + l.dry + l.cut
  }

  /** Nothing that was kept is lost when the quarantine only gains the identifier of the last message. */
  lemma KeptWhenGrown(site: Site, q: Run, grown: Run, run: seq<Happening>)
    requires run != [] && OnlyIdsOf(q, run[..|run| - 1]) && AllKept(site, q, run[..|run| - 1])
    requires forall id :: id in q.originals ==> id in grown.originals && grown.originals[id] == q.originals[id]
    requires q.committed.Keys <= grown.committed.Keys
    requires var last := run[|run| - 1];
             && (forall id :: id in grown.originals ==> id in q.originals || (last.Posted? && id == last.id))
             && (last.Posted? && MustHold(last.job, site.rewriters) ==> Keeps(site, grown, last))
    ensures OnlyIdsOf(grown, run) && AllKept(site, grown, run)
  {
    var front := run[..|run| - 1];
    forall id | id in grown.originals
      ensures HasId(run, id)
    {
      if id in q.originals {
        var k :| 0 <= k < |front| && front[k].Posted? && front[k].id == id;
        assert run[k] == front[k];
      }
    }
    forall k | 0 <= k < |run| && run[k].Posted? && MustHold(run[k].job, site.rewriters)
      ensures Keeps(site, grown, run[k])
    {
      if k < |front| {
        assert run[k] == front[k] && Keeps(site, q, front[k]);
      }
    }
  }

  lemma StoredGrows(c: Cipher, r: Run, id: string, raw: Bytes, held: Record)
    requires Faithful(c) && Consistent(c, r) && id !in r.originals && held.status.Pending?
    ensures var after := Stored(c, r, id, raw, held);
            && Consistent(c, after) && after.originals == r.originals[id := raw]
            && after.committed.Keys == r.committed.Keys + {id} && |after.committed| == |r.committed| + 1
  {
    HeldPair(c, r, id, raw, held);
    assert id !in r.committed;
  }

  lemma HeldEntry(site: Site, l: Ledger, h: Happening)
    requires h.Posted? && !h.job.tagOnly && MustHold(h.job, site.rewriters)
    ensures var held := PlanAt(site, h).held;
            && held.Some? && held.value.status.Pending?
            && Entered(site, l, h) ==
               Ledger(Stored(site.cipher, l.quarantine, h.id, h.job.raw, held.value),
                      l.sends + [], l.attempted, l.cut, l.dry)
  {
  }

  /** What was kept, and the message that was just held. */
  lemma KeptWhenHeld(site: Site, q: Run, grown: Run, run: seq<Happening>)
    requires run != [] && run[|run| - 1].Posted? && OnlyIdsOf(q, run[..|run| - 1]) && AllKept(site, q, run[..|run| - 1])
    requires var last := run[|run| - 1];
             && grown.originals == q.originals[last.id := last.job.raw] && last.id !in q.originals
             && grown.committed.Keys == q.committed.Keys + {last.id}
    ensures OnlyIdsOf(grown, run) && AllKept(site, grown, run)
  {
    KeptWhenGrown(site, q, grown, run);
  }

  /** A message that is relayed, or runs dry, does not touch the quarantine. */
  lemma UnheldBalances(site: Site, l: Ledger, run: seq<Happening>)
    requires run != [] && Balanced(site, l, run[..|run| - 1])
    requires var last := run[|run| - 1];
             last.Posted? && !last.job.tagOnly && !MustHold(last.job, site.rewriters)
    ensures Balanced(site, Entered(site, l, run[|run| - 1]), run)
  {
    var last := run[|run| - 1];
    NoBlindDrop(last.job, site.relaying, last.id, last.now, site.rewriters, last.env);
    KeptWhenGrown(site, l.quarantine, l.quarantine, run);
  }

  lemma HandledBalances(site: Site, l: Ledger, run: seq<Happening>)
    requires run != [] && Faithful(site.cipher) && Balanced(site, l, run[..|run| - 1]) && run[|run| - 1].Handled?
    ensures Balanced(site, Entered(site, l, run[|run| - 1]), run)
  {
    var last := run[|run| - 1];
    StepKeeps(site.cipher, l.quarantine,
              Resolution(last.itemId, if last.released then Released else Rejected, last.who, last.note, last.now));
    KeptWhenGrown(site, l.quarantine, Entered(site, l, last).quarantine, run);
  }

  lemma EntryBalances(site: Site, l: Ledger, run: seq<Happening>)
    requires run != [] && Faithful(site.cipher) && Balanced(site, l, run[..|run| - 1])
    requires Follows(run[..|run| - 1], run[|run| - 1])
    ensures Balanced(site, Entered(site, l, run[|run| - 1]), run)
  {
    var last := run[|run| - 1];
    if last.Handled? {
      HandledBalances(site, l, run);
    } else if MustHold(last.job, site.rewriters) {
      var held := PlanAt(site, last).held;
      HeldEntry(site, l, last);
      StoredGrows(site.cipher, l.quarantine, last.id, last.job.raw, held.value);
      var q := Stored(site.cipher, l.quarantine, last.id, last.job.raw, held.value);
      KeptWhenHeld(site, l.quarantine, q, run);
    } else {
      UnheldBalances(site, l, run);
    }
  }

  lemma {:induction false} LedgerBalances(site: Site, run: seq<Happening>)
    requires Faithful(site.cipher) && Regular(run)
    ensures Balanced(site, LedgerOf(site, run), run)
  {
    if run != [] {
      LedgerBalances(site, run[..|run| - 1]);
      EntryBalances(site, LedgerOf(site, run[..|run| - 1]), run);
    }
  }

  /** The send was made for some posted message, and carries what may leave for it. */
  ghost predicate Traced(site: Site, run: seq<Happening>, s: Send) {
    exists k :: 0 <= k < |run| && run[k].Posted? && SentFor(site, run[k], s)
  }

  ghost predicate SentFor(site: Site, h: Happening, s: Send)
    requires h.Posted?
  {
    && MayCarry(h.job, site.rewriters, s.message) && s.sender == h.job.sender
    && (s.recipients == h.job.recipients || (Mirrors(h.job, site.relaying) && s.recipients == [h.job.socBcc]))
  }

  lemma {:induction false} SendsAreTraced(site: Site, run: seq<Happening>, s: Send)
    requires s in LedgerOf(site, run).sends
    ensures Traced(site, run, s)
  {
    var front, last := run[..|run| - 1], run[|run| - 1];
    if s in LedgerOf(site, front).sends {
      SendsAreTraced(site, front, s);
      var k :| 0 <= k < |front| && front[k].Posted? && SentFor(site, front[k], s);
      assert run[k] == front[k];
    } else {
      NeverRelayedUnmodified(last.job, site.relaying, last.id, last.now, site.rewriters, last.env, s);
      assert SentFor(site, run[|run| - 1], s);
    }
  }

  /**
   Over every run of deliveries, releases and rejections: the messages posted are those attempted
   at their recipients, those in quarantine, the dry runs and those whose delivery was cancelled
   while they were mirrored, each counted once; whatever had to be held can still be read back byte for
   byte, and is pending until somebody resolves it; and every send was made for a posted message, to its
   recipients or as its mirror, with what may leave for it.
   */
  lemma EveryMessageIsAccountedFor(site: Site, run: seq<Happening>)
    requires Faithful(site.cipher) && Regular(run)
    ensures var l := LedgerOf(site, run);
            && CountPosted(run) == l.attempted + |l.quarantine.files.records.Keys| + l.dry + CountCut(site, run)
            && (forall k :: 0 <= k < |run| && run[k].Posted? && MustHold(run[k].job, site.rewriters) ==>
                              && run[k].id in l.quarantine.files.messages
                              && site.cipher.decrypt(l.quarantine.files.messages[run[k].id]) == run[k].job.raw
                              && (run[k].id in PendingIds(l.quarantine.files) <==> run[k].id !in l.quarantine.resolved))
            && (forall s :: s in l.sends ==> Traced(site, run, s))
  {
    LedgerBalances(site, run);
    CutIsCounted(site, run);
    var l := LedgerOf(site, run);
    assert l.quarantine.files.records.Keys == l.quarantine.committed.Keys;
    assert |l.quarantine.committed| == |l.quarantine.committed.Keys|;
    forall k | 0 <= k < |run| && run[k].Posted? && MustHold(run[k].job, site.rewriters)
      ensures Keeps(site, l.quarantine, run[k])
    {
    }
    forall s | s in l.sends
      ensures Traced(site, run, s)
    {
      SendsAreTraced(site, run, s);
    }
  }

  /**
   From the score to the wire: with a stage at 100 or more, whatever feedback says, every copy that
   leaves the gateway has been through the stripper, and without a usable rewriting the message is held.
   */
  lemma MalwareLeavesOnlyStripped(i: Scorer.Inputs, k: nat, job: Job, relaying: bool, id: string, now: real,
                                  rewriters: Rewriters, env: Environment)
    requires Scorer.BaseQuarantine(i) > Scorer.Warn(i) && Scorer.Warn(i) <= 60 && Scorer.NonnegativeWeights(i)
    requires k < |i.stages| && i.stages[k].delta >= 100 && Scorer.Weight(i, i.stages[k].stage) == 1.0
    requires forall j :: 0 <= j < |i.stages| ==> i.stages[j].delta >= 0
    requires -40 <= i.feedback <= 50 && Scorer.Boosts(i) >= 0
    requires job.action == Scorer.ActionOf(i) && !job.tagOnly
    ensures var p := PlanOf(job, relaying, id, now, rewriters, env);
            && (forall s :: s in p.sends ==> rewriters.strip(job.raw) == Stripped(s.message))
            && (rewriters.strip(job.raw).Broken? ==> Holds(job, p))
  {
    Scorer.MalwareIsNeverForwarded(i, k);
    NoBlindDrop(job, relaying, id, now, rewriters, env);
    var p := PlanOf(job, relaying, id, now, rewriters, env);
    forall s | s in p.sends
      ensures rewriters.strip(job.raw) == Stripped(s.message)
    {
      NeverRelayedUnmodified(job, relaying, id, now, rewriters, env, s);
    }
  }

  /**
   From score to fate, outside tag-only mode: without a rule in force, a message whose full score
   reaches the upper threshold is held and not sent, and one below the lower is sent as it came.
   */
  lemma ScoreDecidesFate(i: Scorer.Inputs, scores: seq<int>, w: int, q: int, job: Job, relaying: bool, id: string,
                         now: real, rewriters: Rewriters, env: Environment)
    requires Scorer.Scores(i, scores) && Scorer.Thresholds(i, w, q) && Scorer.BaseQuarantine(i) > Scorer.Warn(i)
    requires i.allowBlock.None? && job.action == Scorer.ActionOf(i) && !job.tagOnly
    ensures var p := PlanOf(job, relaying, id, now, rewriters, env);
            && (Scorer.FullScore(i, scores) >= q ==>
                  p.sends == [] && p.held.Some? && p.held.value.status.Pending? && p.held.value.action == "quarantine")
            && (Scorer.FullScore(i, scores) < w && relaying && !CutShort(job, relaying, env) ==>
                  && p.held.None? && p.sends != []
                  && p.sends[|p.sends| - 1] == Send(job.raw, job.sender, job.recipients))
            && (w <= Scorer.FullScore(i, scores) < q ==>
                  forall s :: s in p.sends ==> rewriters.strip(job.raw) == Stripped(s.message))
  {
    Scorer.ScoreDecides(i, scores, w, q);
  }
}
