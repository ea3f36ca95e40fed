/**
  The hash-chained audit log: how an entry is appended, what verification accepts, and what a known
  head hash proves about everything before it.
 */
module AuditChain {
  import opened Wrappers

  /** The hashed fields of an entry. `details` stands for its canonical JSON text. */
  datatype Record = Record(
    occurredAt: int,
    actorSubject: Option<string>,
    action: string,
    objectType: string,
    objectId: Option<string>,
    details: string,
    previousHash: Option<string>)

  datatype Entry = Entry(id: nat, record: Record, entryHash: string)

  /** The hash of a record: a digest of its canonical text. */
  type Hash = Record -> string

  /** Nothing is assumed of the digest, which is SHA-256 in the program, least of all injectivity. */
  function CalculateAuditHash(canonical: Record -> string, digest: string -> string): Hash {
    (r: Record) => digest(canonical(r))
  }

  /** A JSON text with named fields and sorted keys tells any two records apart. */
  ghost predicate TellsApart(canonical: Record -> string) {
    forall r, s | canonical(r) == canonical(s) :: r == s
  }

  function HashBefore(entries: seq<Entry>, i: nat): Option<string>
    requires i <= |entries|
  {
    if i == 0 then None else Some(entries[i - 1].entryHash)
  }

  /** Every entry carries its own hash and the hash of its predecessor. */
  ghost predicate Chained(h: Hash, entries: seq<Entry>) {
    forall i | 0 <= i < |entries| ::
      entries[i].record.previousHash == HashBefore(entries, i) && entries[i].entryHash == h(entries[i].record)
  }

  method VerifyAuditChain(h: Hash, entries: seq<Entry>) returns (valid: bool, firstInvalid: Option<nat>)
    ensures valid <==> Chained(h, entries)
    ensures valid <==> firstInvalid.None?
    ensures !valid ==> exists k | 0 <= k < |entries| ::
                         firstInvalid == Some(entries[k].id) && Chained(h, entries[..k]) && !Chained(h, entries[..k + 1])
  {
    var previousHash: Option<string> := None;
    for i := 0 to |entries|
      invariant previousHash == HashBefore(entries, i)
      invariant Chained(h, entries[..i])
    {
      var entry := entries[i];
      var expected := h(entry.record);
      assert entries[..i + 1][i] == entry && HashBefore(entries[..i + 1], i) == HashBefore(entries, i);
      if entry.record.previousHash != previousHash || entry.entryHash != expected {
        assert !Chained(h, entries);
        return false, Some(entry.id);
      }
      ChainExtends(h, entries[..i], entry);
      assert entries[..i] + [entry] == entries[..i + 1];
      previousHash := Some(entry.entryHash);
    }
    assert entries[..|entries|] == entries;
    return true, None;
  }

  /** The first entry points at nothing, every other one at the hash of the entry before it. */
  lemma ChainedMeans(h: Hash, entries: seq<Entry>)
    ensures Chained(h, entries) <==>
            && (forall i | 0 <= i < |entries| :: entries[i].entryHash == h(entries[i].record))
            && (entries != [] ==> entries[0].record.previousHash == None)
            && (forall i | 1 <= i < |entries| :: entries[i].record.previousHash == Some(entries[i - 1].entryHash))
  {
  }

  lemma ChainExtends(h: Hash, entries: seq<Entry>, e: Entry)
    ensures Chained(h, entries + [e]) <==>
            Chained(h, entries) && e.record.previousHash == HashBefore(entries, |entries|) && e.entryHash == h(e.record)
  {
    var longer := entries + [e];
    assert forall i | 0 <= i < |entries| :: longer[i] == entries[i] && HashBefore(longer, i) == HashBefore(entries, i);
    assert longer[|entries|] == e;
  }

  /** The table behind `append_audit_log`, as one writer at a time sees it. */
  class AuditTable {
    const h: Hash
    var rows: seq<Entry>
    var nextId: nat

    ghost predicate Valid()
      reads this
    {
      && Chained(h, rows)
      && (forall i | 0 <= i < |rows| :: rows[i].id < nextId)
      && forall i, j | 0 <= i < j < |rows| :: rows[i].id < rows[j].id
    }

    constructor (h: Hash)
      ensures Valid() && rows == [] && this.h == h
    {
      this.h := h;
      rows := [];
      nextId := 1;
    }

    method AppendAuditLog(occurredAt: int, actor: string, action: string, objectType: string, objectId: Option<string>, details: string)
      returns (entry: Entry)
      requires Valid()
      modifies this
      ensures Valid() && rows == old(rows) + [entry]
      ensures entry.record ==
              Record(occurredAt, Some(actor), action, objectType, objectId, details, HashBefore(old(rows), |old(rows)|))
    {
      var previousHash := if rows == [] then None else Some(rows[|rows| - 1].entryHash);
      var record := Record(occurredAt, Some(actor), action, objectType, objectId, details, previousHash);
      entry := Entry(nextId, record, h(record));
      ChainExtends(h, rows, entry);
      rows, nextId := rows + [entry], nextId + 1;
    }
  }

  // ---- Tamper evidence ----

  predicate SameRecords(a: seq<Entry>, b: seq<Entry>) {
    |a| == |b| && forall i | 0 <= i < |a| :: a[i].record == b[i].record && a[i].entryHash == b[i].entryHash
  }

  predicate Records(entries: seq<Entry>, r: Record) {
    exists i | 0 <= i < |entries| :: entries[i].record == r
  }

  lemma RecordsGrow(entries: seq<Entry>, e: Entry, r: Record)
    ensures Records(entries, r) ==> Records(entries + [e], r)
    ensures Records(entries + [e], e.record)
  {
    var longer := entries + [e];
    assert longer[|entries|] == e;
    if i :| 0 <= i < |entries| && entries[i].record == r {
      assert longer[i] == entries[i];
    }
  }

  lemma SameRecordsGrow(a: seq<Entry>, b: seq<Entry>, x: Entry, y: Entry)
    requires SameRecords(a, b) && x.record == y.record && x.entryHash == y.entryHash
    ensures SameRecords(a + [x], b + [y])
  {
  }

  /**
    Walking two logs backwards: two verifying logs with the same head hash record the same history, entry by entry and of the
    same length; or one entry of each are different and have one hash.
   */
  lemma {:induction false} HeadHashDeterminesRecords(h: Hash, a: seq<Entry>, b: seq<Entry>) returns (collision: Option<(Record, Record)>)
    requires Chained(h, a) && Chained(h, b)
    requires HashBefore(a, |a|) == HashBefore(b, |b|)
    ensures match collision
            case None => SameRecords(a, b)
            case Some((x, y)) => x != y && h(x) == h(y) && Records(a, x) && Records(b, y)
    decreases |a|
  {
    collision := None;
    if a != [] && b != [] {
      ChainEnds(h, a);
      ChainEnds(h, b);
      hide Chained, SameRecords, Records, HashBefore;
      var x, y, front, back := a[|a| - 1], b[|b| - 1], a[..|a| - 1], b[..|b| - 1];
      if x.record != y.record {
        collision := Some((x.record, y.record));
        RecordsGrow(front, x, x.record);
        RecordsGrow(back, y, y.record);
      } else {
        collision := HeadHashDeterminesRecords(h, front, back);
        if collision.Some? {
          RecordsGrow(front, x, collision.value.0);
          RecordsGrow(back, y, collision.value.1);
        } else {
          SameRecordsGrow(front, back, x, y);
        }
      }
    }
  }

  lemma ChainEnds(h: Hash, entries: seq<Entry>)
    requires Chained(h, entries) && entries != []
    ensures var front, last := entries[..|entries| - 1], entries[|entries| - 1];
            && entries == front + [last] && Chained(h, front)
            && last.record.previousHash == HashBefore(front, |front|) && last.entryHash == h(last.record)
            && HashBefore(entries, |entries|) == Some(last.entryHash)
  {
    hide Chained;
    assert entries == entries[..|entries| - 1] + [entries[|entries| - 1]];
    ChainExtends(h, entries[..|entries| - 1], entries[|entries| - 1]);
  }

  /**
    Tamper evidence from the head hash alone: two verifying logs that end in one hash record the same
    history, entry by entry and of the same length, or they yield two different canonical texts, one
    from each log, with one digest.
   */
  lemma HeadHashDeterminesLog(canonical: Record -> string, digest: string -> string, a: seq<Entry>, b: seq<Entry>)
    returns (collision: Option<(Record, Record)>)
    requires TellsApart(canonical)
    requires Chained(CalculateAuditHash(canonical, digest), a) && Chained(CalculateAuditHash(canonical, digest), b)
    requires HashBefore(a, |a|) == HashBefore(b, |b|)
    ensures match collision
            case None => |a| == |b| && forall i | 0 <= i < |a| :: a[i].record == b[i].record && a[i].entryHash == b[i].entryHash
            case Some((x, y)) =>
              && canonical(x) != canonical(y) && digest(canonical(x)) == digest(canonical(y))
              && (exists i | 0 <= i < |a| :: a[i].record == x) && (exists i | 0 <= i < |b| :: b[i].record == y)
  {
    hide Chained, HashBefore;
    var h := CalculateAuditHash(canonical, digest);
    collision := HeadHashDeterminesRecords(h, a, b);
    if collision.Some? {
      var (x, y) := collision.value;
      assert h(x) == digest(canonical(x)) && h(y) == digest(canonical(y));
    }
  }

  /**
    Without a remembered head, verification cannot notice that the newest entries are missing:
    every prefix of a verifying log verifies.
   */
  lemma PrefixVerifies(h: Hash, entries: seq<Entry>, n: nat)
    requires Chained(h, entries) && n <= |entries|
    ensures Chained(h, entries[..n])
  {
    assert forall i | 0 <= i < n :: HashBefore(entries[..n], i) == HashBefore(entries, i);
  }
}
