/** The on-disk quarantine of delivery/quarantine.py: one message file and one metadata file per item. */
module QuarantineStores {
  import opened Text
  import opened Encodings

  type Bytes = seq<Byte>

  datatype Status = Pending | Released | Rejected

  datatype Record = Record(messageId: string, envelopeFrom: string, envelopeTo: seq<string>, totalScore: int,
                           action: string, reasons: seq<string>, quarantinedAt: real,
                           status: Status, resolvedBy: string, note: string, resolvedAt: Option<real>)

  datatype Cipher = Cipher(encrypt: Bytes -> Bytes, decrypt: Bytes -> Bytes)

  ghost predicate Faithful(c: Cipher) {
    forall m :: c.decrypt(c.encrypt(m)) == m
  }

  function Resolved(r: Record, status: Status, who: string, note: string, now: real): Record {
    r.(status := status, resolvedBy := who, note := note, resolvedAt := Some(now))
  }

  /** Message files and metadata files, by quarantine id. */
  datatype Files = Files(messages: map<string, Bytes>, records: map<string, Record>)

  function WithMessage(f: Files, id: string, payload: Bytes): Files {
    f.(messages := f.messages[id := payload])
  }

  function WithRecord(f: Files, id: string, r: Record): Files {
    f.(records := f.records[id := r])
  }

  function WithResolution(f: Files, id: string, status: Status, who: string, note: string, now: real): Files {
    if id in f.records then WithRecord(f, id, Resolved(f.records[id], status, who, note, now)) else f
  }

  function PendingIds(f: Files): set<string> {
    set id | id in f.records && f.records[id].status.Pending?
  }

  function IdsOf(listing: seq<(string, Record)>): set<string> {
    set item | item in listing :: item.0
  }

  lemma IdsOfOneMore(listing: seq<(string, Record)>, item: (string, Record))
    ensures IdsOf(listing + [item]) == IdsOf(listing) + {item.0}
  {
    assert item in listing + [item];
    forall id | id in IdsOf(listing)
      ensures id in IdsOf(listing + [item])
    {
      var x :| x in listing && x.0 == id;
      assert x in listing + [item];
    }
  }

  class QuarantineStore {
    const cipher: Cipher
    var messages: map<string, Bytes>
    var records: map<string, Record>

    ghost function View(): Files
      reads this
    {
      Files(messages, records)
    }

    constructor (cipher: Cipher)
      ensures this.cipher == cipher && messages == map[] && records == map[]
    {
      this.cipher := cipher;
      messages, records := map[], map[];
    }

    /** The first half of `store`. */
    method WriteMessage(id: string, raw: Bytes)
      modifies this`messages
      ensures View() == WithMessage(old(View()), id, cipher.encrypt(raw))
    {
      messages := messages[id := cipher.encrypt(raw)];
    }

    /** The second half of `store`. */
    method WriteRecord(id: string, r: Record)
      modifies this`records
      ensures View() == WithRecord(old(View()), id, r)
    {
      records := records[id := r];
    }

    method Store(id: string, raw: Bytes, r: Record)
      modifies this
      ensures View() == WithRecord(WithMessage(old(View()), id, cipher.encrypt(raw)), id, r)
    {
      WriteMessage(id, raw);
      WriteRecord(id, r);
    }

    method GetRawMessage(id: string) returns (raw: Option<Bytes>)
      ensures raw == if id in messages then Some(cipher.decrypt(messages[id])) else None
    {
      if id !in messages {
        return None;
      }
      return Some(cipher.decrypt(messages[id]));
    }

    method Resolve(id: string, status: Status, who: string, note: string, now: real) returns (r: Option<Record>)
      modifies this`records
      ensures View() == WithResolution(old(View()), id, status, who, note, now)
      ensures r == if id in old(records) then Some(Resolved(old(records)[id], status, who, note, now)) else None
    {
      if id !in records {
        return None;
      }
      var record := Resolved(records[id], status, who, note, now);
      records := records[id := record];
      return Some(record);
    }

    method Release(id: string, who: string, note: string, now: real) returns (r: Option<Record>)
      modifies this`records
      ensures View() == WithResolution(old(View()), id, Released, who, note, now)
      ensures r == if id in old(records) then Some(Resolved(old(records)[id], Released, who, note, now)) else None
    {
      r := Resolve(id, Released, who, note, now);
    }

    method Reject(id: string, who: string, note: string, now: real) returns (r: Option<Record>)
      modifies this`records
      ensures View() == WithResolution(old(View()), id, Rejected, who, note, now)
      ensures r == if id in old(records) then Some(Resolved(old(records)[id], Rejected, who, note, now)) else None
    {
      r := Resolve(id, Rejected, who, note, now);
    }

    /** The first of some metadata files in the order in which they are listed. */
    method FirstFile(ids: set<string>) returns (first: string)
      requires ids != {}
      ensures first in ids && forall id :: id in ids && id != first ==> ListedBefore(first, id)
    {
      first :| first in ids;
      var rest := ids - {first};
      ghost var seen := {first};
      while rest != {}
        invariant first in seen && seen + rest == ids
        invariant forall id :: id in seen && id != first ==> ListedBefore(first, id)
        decreases rest
      {
        var id :| id in rest;
        rest := rest - {id};
        seen := seen + {id};
        if ListedBefore(id, first) {
          forall other | other in seen && other != id
            ensures ListedBefore(id, other)
          {
            if other != first {
              LexTransitive(MetaName(id), MetaName(first), MetaName(other));
            }
          }
          first := id;
        } else {
          LexTotal(MetaName(first), MetaName(id));
          SameName(first, id);
        }
      }
    }

    /** The pending records with their ids, in the order of their file names. */
    method ListPending() returns (pending: seq<(string, Record)>)
      ensures forall k :: 0 <= k < |pending| ==> pending[k].0 in records && pending[k].1 == records[pending[k].0]
      ensures forall j, k :: 0 <= j < k < |pending| ==> ListedBefore(pending[j].0, pending[k].0)
      ensures IdsOf(pending) == PendingIds(View())
    {
      pending := [];
      var rest := records.Keys;
      while rest != {}
        invariant rest <= records.Keys
        invariant forall k :: 0 <= k < |pending| ==> pending[k].0 in records && pending[k].1 == records[pending[k].0]
        invariant forall j, k :: 0 <= j < k < |pending| ==> ListedBefore(pending[j].0, pending[k].0)
        invariant forall k, id :: 0 <= k < |pending| && id in rest ==> ListedBefore(pending[k].0, id)
        invariant IdsOf(pending) == PendingIds(View()) - rest
        decreases rest
      {
        var id := FirstFile(rest);
        rest := rest - {id};
        if records[id].status.Pending? {
          IdsOfOneMore(pending, (id, records[id]));
          pending := pending + [(id, records[id])];
        }
      }
    }
  }

  // ---------- The order of file names ----------

  predicate LexLess(a: string, b: string) {
    b != "" && (a == "" || a[0] < b[0] || (a[0] == b[0] && LexLess(a[1..], b[1..])))
  }

  function MetaName(id: string): string {
    id + ".json"
  }

  predicate ListedBefore(a: string, b: string) {
    LexLess(MetaName(a), MetaName(b))
  }

  lemma {:induction false} LexTransitive(a: string, b: string, c: string)
    requires LexLess(a, b) && LexLess(b, c)
    ensures LexLess(a, c)
  {
    if a != "" && a[0] == b[0] == c[0] {
      LexTransitive(a[1..], b[1..], c[1..]);
    }
  }

  lemma {:induction false} LexTotal(a: string, b: string)
    ensures LexLess(a, b) || a == b || LexLess(b, a)
  {
    if a != "" && b != "" && a[0] == b[0] {
      LexTotal(a[1..], b[1..]);
      assert a == [a[0]] + a[1..] && b == [b[0]] + b[1..];
    }
  }

  /** Names are ordered by the first character in which they differ; a beginning comes first. */
  lemma {:induction false} LexByFirstDifference(a: string, b: string, k: nat)
    requires k <= |a| && k <= |b| && a[..k] == b[..k] && (k == |a| || k == |b| || a[k] != b[k])
    ensures LexLess(a, b) <==> k < |b| && (k == |a| || a[k] < b[k])
  {
    if k > 0 {
      assert a[0] == a[..k][0] && b[0] == b[..k][0];
      assert a[1..][..k - 1] == a[..k][1..] && b[1..][..k - 1] == b[..k][1..];
      LexByFirstDifference(a[1..], b[1..], k - 1);
    }
  }

  lemma SameName(a: string, b: string)
    ensures MetaName(a) == MetaName(b) ==> a == b
  {
    assert |MetaName(a)| == |MetaName(b)| ==> |a| == |b|;
    assert a == MetaName(a)[..|a|] && b == MetaName(b)[..|b|];
  }

  // ---------- Every run ----------

  /** The two halves of a store and the resolutions, in any interleaving; ids are never drawn twice. */
  datatype Event =
    | Begun(id: string, raw: Bytes)
    | Committed(id: string, record: Record)
    | Resolution(id: string, status: Status, who: string, note: string, now: real)

  /** The files, with the bytes and the records that were given to the store and the items resolved since. */
  datatype Run = Run(files: Files, originals: map<string, Bytes>, committed: map<string, Record>, resolved: set<string>)

  const EMPTY := Run(Files(map[], map[]), map[], map[], {})

  /** An id is begun once, then committed once as pending; a resolution releases or rejects. */
  predicate Proper(r: Run, e: Event) {
    match e
    case Begun(id, _) => id !in r.originals
    case Committed(id, record) => id in r.originals && id !in r.committed && record.status.Pending?
    case Resolution(_, status, _, _, _) => !status.Pending?
  }

  function Step(c: Cipher, r: Run, e: Event): Run
    requires Proper(r, e)
  {
    match e
    case Begun(id, raw) => r.(files := WithMessage(r.files, id, c.encrypt(raw)), originals := r.originals[id := raw])
    case Committed(id, record) => r.(files := WithRecord(r.files, id, record), committed := r.committed[id := record])
    case Resolution(id, status, who, note, now) =>
      r.(files := WithResolution(r.files, id, status, who, note, now),
         resolved := if id in r.files.records then r.resolved + {id} else r.resolved)
  }

  function RunAll(c: Cipher, r: Run, events: seq<Event>): Run
    decreases |events|
  {
    if events == [] then r
    else RunAll(c, if Proper(r, events[0]) then Step(c, r, events[0]) else r, events[1..])
  }

  /** The two records differ at most in how the item was resolved. */
  predicate SameItem(a: Record, b: Record) {
    b == a.(status := b.status, resolvedBy := b.resolvedBy, note := b.note, resolvedAt := b.resolvedAt)
  }

  /** What the file of an item says, given what was stored and whether it has been resolved since. */
  predicate Kept(stored: Record, current: Record, resolved: bool) {
    SameItem(stored, current) && if resolved then !current.status.Pending? else current == stored
  }

  ghost predicate Consistent(c: Cipher, r: Run) {
    && r.files.messages.Keys == r.originals.Keys
    && (forall id :: id in r.originals ==> c.decrypt(r.files.messages[id]) == r.originals[id])
    && r.files.records.Keys == r.committed.Keys <= r.originals.Keys
    && r.resolved <= r.committed.Keys
    && (forall id :: id in r.committed ==>
                       r.committed[id].status.Pending? && Kept(r.committed[id], r.files.records[id], id in r.resolved))
  }

  lemma StepKeeps(c: Cipher, r: Run, e: Event)
    requires Faithful(c) && Consistent(c, r) && Proper(r, e)
    ensures Consistent(c, Step(c, r, e))
  {
    if e.Begun? {
      assert c.decrypt(c.encrypt(e.raw)) == e.raw;
    }
  }

  lemma {:induction false} RunKeeps(c: Cipher, r: Run, events: seq<Event>)
    requires Faithful(c) && Consistent(c, r)
    ensures Consistent(c, RunAll(c, r, events))
    decreases |events|
  {
    if events != [] {
      if Proper(r, events[0]) {
        StepKeeps(c, r, events[0]);
        RunKeeps(c, Step(c, r, events[0]), events[1..]);
      } else {
        RunKeeps(c, r, events[1..]);
      }
    }
  }

  /**
   After every run the original bytes of each item stay retrievable, no metadata exists without
   its message, the pending items are exactly those stored and not yet resolved, and a record
   still describes the item it was stored for.
   */
  lemma NothingIsLost(c: Cipher, events: seq<Event>)
    requires Faithful(c)
    ensures var r := RunAll(c, EMPTY, events);
            && (forall id :: id in r.originals ==>
                  id in r.files.messages && c.decrypt(r.files.messages[id]) == r.originals[id])
            && r.files.records.Keys <= r.files.messages.Keys
            && PendingIds(r.files) == r.committed.Keys - r.resolved
            && (forall id :: id in r.committed ==>
                  id in r.files.records && SameItem(r.committed[id], r.files.records[id]))
  {
    RunKeeps(c, EMPTY, events);
  }

  /** A resolution writes its status, who, why and when, and nothing else, until the item is resolved again. */
  lemma ResolutionIsKept(c: Cipher, r: Run, id: string, status: Status, who: string, note: string, now: real,
                         more: seq<Event>)
    requires Faithful(c) && Consistent(c, r) && id in r.files.records && !status.Pending?
    requires forall k :: 0 <= k < |more| && more[k].Resolution? ==> more[k].id != id
    ensures var files := RunAll(c, Step(c, r, Resolution(id, status, who, note, now)), more).files;
            && id in files.records && id !in PendingIds(files)
            && files.records[id] ==
               r.files.records[id].(status := status, resolvedBy := who, note := note, resolvedAt := Some(now))
  {
    var e := Resolution(id, status, who, note, now);
    StepKeeps(c, r, e);
    RecordStays(c, Step(c, r, e), id, more);
  }

  lemma {:induction false} RecordStays(c: Cipher, r: Run, id: string, more: seq<Event>)
    requires Faithful(c) && Consistent(c, r) && id in r.files.records
    requires forall k :: 0 <= k < |more| && more[k].Resolution? ==> more[k].id != id
    ensures var files := RunAll(c, r, more).files; id in files.records && files.records[id] == r.files.records[id]
    decreases |more|
  {
    if more != [] {
      var next := if Proper(r, more[0]) then Step(c, r, more[0]) else r;
      if Proper(r, more[0]) {
        StepKeeps(c, r, more[0]);
      }
      assert id in next.files.records && next.files.records[id] == r.files.records[id];
      RecordStays(c, next, id, more[1..]);
    }
  }
}
