/**
  The key transparency log: an append-only file of hash-linked entries, and the verifier
  that walks it. The hash is a parameter; tamper evidence needs it to be injective on the
  six fields that it covers.
 */
module KeyTransparency {
  import opened Wrappers

  /** What an entry hash covers. */
  datatype Covered = Covered(
    seqNo: int, ts: string, eventType: string, fingerprint: string, payload: string, prevHash: string)

  datatype Entry = Entry(covered: Covered, entryHash: string)

  /** One line of the file: blank, a parsable entry, or anything else. */
  datatype Line = Blank | Stored(entry: Entry) | Garbage

  type Hash = Covered -> string

  const GENESIS_PREV_HASH := "0000000000000000" + "0000000000000000" + "0000000000000000" + "0000000000000000"

  ghost predicate Injective(h: Hash) {
    forall x, y :: h(x) == h(y) ==> x == y
  }

  datatype BreakReason = NonContiguousSeq | PrevHashMismatch | EntryHashMismatch

  datatype Verification = Intact(checked: nat) | Broken(checked: nat, brokenSeq: int, reason: BreakReason)

  /** A payload with no JSON text is refused; reading a line that does not parse raises, whoever reads. */
  datatype LogError = NotSerializable | MalformedEntry

  // ---------------------------------------------------------------------------
  // Entries and chains
  // ---------------------------------------------------------------------------

  /** The entries before the first unparsable line, and whether there is such a line. */
  function EntriesOf(lines: seq<Line>): seq<Entry> {
    if lines == [] then []
    else match lines[0]
      case Blank => EntriesOf(lines[1..])
      case Garbage => []
      case Stored(e) => [e] + EntriesOf(lines[1..])
  }

  predicate Readable(lines: seq<Line>) {
    forall k :: 0 <= k < |lines| ==> !lines[k].Garbage?
  }

  function ExpectedPrev(entries: seq<Entry>, i: nat): string
    requires i <= |entries|
  {
    if i == 0 then GENESIS_PREV_HASH else entries[i - 1].entryHash
  }

  /** What is wrong with entry `i`, given that it follows the entries before it. */
  function BreakAt(h: Hash, entries: seq<Entry>, i: nat): Option<BreakReason>
    requires i < |entries|
  {
    var e := entries[i];
    if e.covered.seqNo != i then Some(NonContiguousSeq)
    else if e.covered.prevHash != ExpectedPrev(entries, i) then Some(PrevHashMismatch)
    else if h(e.covered) != e.entryHash then Some(EntryHashMismatch)
    else None
  }

  lemma GenesisIsZeros()
    ensures GENESIS_PREV_HASH == seq(64, _ => '0')
  {
    SixteenZeros();
  }

  lemma SixteenZeros()
    ensures "0000000000000000" == seq(16, _ => '0')
  {
  }

  /** Exactly what is wrong with an entry, the number before the link before the hash. */
  lemma BreakInFields(h: Hash, entries: seq<Entry>, i: nat)
    requires i < |entries|
    ensures var e, reason := entries[i], BreakAt(h, entries, i);
            var numbered := e.covered.seqNo == i;
            var linked := e.covered.prevHash == if i == 0 then seq(64, _ => '0') else entries[i - 1].entryHash;
            && (reason == Some(NonContiguousSeq) <==> !numbered)
            && (reason == Some(PrevHashMismatch) <==> numbered && !linked)
            && (reason == Some(EntryHashMismatch) <==> numbered && linked && h(e.covered) != e.entryHash)
            && (reason.None? <==> numbered && linked && h(e.covered) == e.entryHash)
  {
    GenesisIsZeros();
  }

  /** Blank lines do not count, and nothing after an unparsable line does. */
  lemma EntriesInFields(rest: seq<Line>, e: Entry)
    ensures EntriesOf([Blank] + rest) == EntriesOf(rest) && EntriesOf([Garbage] + rest) == []
    ensures EntriesOf([Stored(e)] + rest) == [e] + EntriesOf(rest)
  {
    assert ([Blank] + rest)[1..] == rest && ([Stored(e)] + rest)[1..] == rest;
  }

  /** The first `n` entries verify. */
  ghost predicate VerifiesUpTo(h: Hash, entries: seq<Entry>, n: nat)
    requires n <= |entries|
  {
    forall i :: 0 <= i < n ==> BreakAt(h, entries, i).None?
  }

  ghost predicate Verifies(h: Hash, entries: seq<Entry>) {
    VerifiesUpTo(h, entries, |entries|)
  }

  /** The verdict of a walk: where the longest verifying prefix ends, and what stops it there. */
  ghost predicate IsVerdict(h: Hash, entries: seq<Entry>, v: Verification) {
    match v
    case Intact(checked) => checked == |entries| && Verifies(h, entries)
    case Broken(checked, brokenSeq, reason) =>
      && checked < |entries| && VerifiesUpTo(h, entries, checked)
      && BreakAt(h, entries, checked) == Some(reason)
      && brokenSeq == entries[checked].covered.seqNo
  }

  /** `checked` is the length of the longest prefix that verifies. */
  lemma CheckedIsLongest(h: Hash, entries: seq<Entry>, v: Verification, n: nat)
    requires IsVerdict(h, entries, v) && n <= |entries|
    ensures VerifiesUpTo(h, entries, n) <==> n <= v.checked
  {
    if v.checked < n {
      assert BreakAt(h, entries, v.checked).Some?;
    }
  }

  /** So the log alone determines the verdict. */
  lemma VerdictIsUnique(h: Hash, entries: seq<Entry>, v: Verification, v': Verification)
    requires IsVerdict(h, entries, v) && IsVerdict(h, entries, v')
    ensures v == v'
  {
    CheckedIsLongest(h, entries, v, v'.checked);
    CheckedIsLongest(h, entries, v', v.checked);
  }

  // ---------------------------------------------------------------------------
  // The log
  // ---------------------------------------------------------------------------

  function NextEntry(h: Hash, entries: seq<Entry>, ts: string, eventType: string, fingerprint: string, payload: string)
    : Entry
  {
    var n := |entries|;
    var covered := Covered(if n == 0 then 0 else entries[n - 1].covered.seqNo + 1,
                           ts, eventType, fingerprint, payload, ExpectedPrev(entries, n));
    Entry(covered, h(covered))
  }

  lemma {:induction false} EntriesAppend(lines: seq<Line>, more: seq<Line>)
    requires Readable(lines)
    ensures EntriesOf(lines + more) == EntriesOf(lines) + EntriesOf(more)
    decreases |lines|
  {
    if lines == [] {
      assert lines + more == more;
    } else {
      assert (lines + more)[1..] == lines[1..] + more;
      EntriesAppend(lines[1..], more);
    }
  }

  lemma EntriesSnoc(lines: seq<Line>, line: Line)
    requires Readable(lines) && !line.Garbage?
    ensures EntriesOf(lines + [line]) ==
            if line.Stored? then EntriesOf(lines) + [line.entry] else EntriesOf(lines)
  {
    EntriesAppend(lines, [line]);
    assert [line][1..] == [] && EntriesOf(lines) + [] == EntriesOf(lines);
  }

  class KeyTransparencyLog {
    const hash: Hash
    var lines: seq<Line>

    constructor (hash: Hash)
      ensures this.hash == hash && lines == []
    {
      this.hash, lines := hash, [];
    }

    /** Walk to the tail, as every append does. */
    method LastEntry() returns (r: Result<Option<Entry>, LogError>)
      ensures r.Err? <==> !Readable(lines)
      ensures r.Err? ==> r.error == MalformedEntry
      ensures r.Ok? ==> var entries := EntriesOf(lines);
              r.value == if entries == [] then None else Some(entries[|entries| - 1])
    {
      ghost var all := EntriesOf(lines);
      ghost var seen := 0;
      var last := None;
      for i := 0 to |lines|
        invariant forall k :: 0 <= k < i ==> !lines[k].Garbage?
        invariant seen <= |all| && all[seen..] == EntriesOf(lines[i..])
        invariant last == if seen == 0 then None else Some(all[seen - 1])
      {
        assert lines[i..][1..] == lines[i + 1..];
        match lines[i]
        case Blank =>
        case Garbage =>
          return Err(MalformedEntry);
        case Stored(entry) =>
          assert all[seen..][0] == entry;
          last, seen := Some(entry), seen + 1;
      }
      return Ok(last);
    }

    /**
      The only write: one more line, or nothing at all if the file or the payload is unusable. The payload
      is given by its JSON text, if it has one.
     */
    method Append(ts: string, eventType: string, fingerprint: string, payload: Option<string>)
      returns (r: Result<Entry, LogError>)
      modifies this
      ensures r.Err? ==> lines == old(lines)
      ensures r == Err(NotSerializable) <==> payload.None?
      ensures r == Err(MalformedEntry) <==> payload.Some? && !Readable(old(lines))
      ensures r.Ok? ==>
              && r.value == NextEntry(hash, EntriesOf(old(lines)), ts, eventType, fingerprint, payload.value)
              && lines == old(lines) + [Stored(r.value)]
              && r.value.covered.ts == ts && r.value.covered.eventType == eventType
              && r.value.covered.fingerprint == fingerprint && r.value.covered.payload == payload.value
              && r.value.entryHash == hash(r.value.covered)
              && (EntriesOf(old(lines)) == [] ==>
                    r.value.covered.seqNo == 0 && r.value.covered.prevHash == seq(64, _ => '0'))
              && (EntriesOf(old(lines)) != [] ==>
                    var entries := EntriesOf(old(lines));
                    && r.value.covered.seqNo == entries[|entries| - 1].covered.seqNo + 1
                    && r.value.covered.prevHash == entries[|entries| - 1].entryHash)
              && EntriesOf(lines) == EntriesOf(old(lines)) + [r.value]
    {
      if payload.None? {
        return Err(NotSerializable);
      }
      var last := LastEntry();
      if last.Err? {
        return Err(MalformedEntry);
      }
      var seqNo := if last.value.None? then 0 else last.value.value.covered.seqNo + 1;
      var prevHash := if last.value.None? then GENESIS_PREV_HASH else last.value.value.entryHash;
      var covered := Covered(seqNo, ts, eventType, fingerprint, payload.value, prevHash);
      var entry := Entry(covered, hash(covered));
      EntriesSnoc(lines, Stored(entry));
      GenesisIsZeros();
      lines := lines + [Stored(entry)];
      return Ok(entry);
    }

    /** The walk stops at the first break, or raises at an unparsable line that it reaches first. */
    method VerifyChain() returns (r: Result<Verification, LogError>)
      ensures r.Ok? ==> IsVerdict(hash, EntriesOf(lines), r.value)
      ensures r.Err? ==> r.error == MalformedEntry
      ensures r.Err? <==> !Readable(lines) && Verifies(hash, EntriesOf(lines))
    {
      ghost var all := EntriesOf(lines);
      var expectedPrev, expectedSeq, checked := GENESIS_PREV_HASH, 0, 0;
      for i := 0 to |lines|
        invariant forall k :: 0 <= k < i ==> !lines[k].Garbage?
        invariant expectedSeq == checked <= |all|
        invariant all[checked..] == EntriesOf(lines[i..])
        invariant VerifiesUpTo(hash, all, checked)
        invariant expectedPrev == ExpectedPrev(all, checked)
      {
        assert lines[i..][1..] == lines[i + 1..];
        match lines[i]
        case Blank =>
        case Garbage =>
          return Err(MalformedEntry);
        case Stored(entry) =>
          assert all[checked..][0] == entry;
          if entry.covered.seqNo != expectedSeq {
            return Ok(Broken(checked, entry.covered.seqNo, NonContiguousSeq));
          }
          if entry.covered.prevHash != expectedPrev {
            return Ok(Broken(checked, entry.covered.seqNo, PrevHashMismatch));
          }
          if hash(entry.covered) != entry.entryHash {
            return Ok(Broken(checked, entry.covered.seqNo, EntryHashMismatch));
          }
          expectedPrev := entry.entryHash;
          expectedSeq, checked := expectedSeq + 1, checked + 1;
      }
      return Ok(Intact(checked));
    }
  }

  // ---------------------------------------------------------------------------
  // Tamper evidence
  // ---------------------------------------------------------------------------

  /** In verifying logs, entries with one hash sit at one position, and so do their predecessors. */
  lemma {:induction false} SameHashSamePast(h: Hash, a: seq<Entry>, b: seq<Entry>, i: nat, j: nat)
    requires Injective(h) && Verifies(h, a) && Verifies(h, b)
    requires i < |a| && j < |b| && a[i].entryHash == b[j].entryHash
    ensures i == j && a[..i + 1] == b[..j + 1]
    decreases i
  {
    assert BreakAt(h, a, i).None? && BreakAt(h, b, j).None?;
    assert a[i] == b[j];
    if i > 0 {
      SameHashSamePast(h, a, b, i - 1, j - 1);
      assert a[..i + 1] == a[..i] + [a[i]] && b[..j + 1] == b[..j] + [b[j]];
    }
  }

  /** Two verifying logs with the same final hash are the same log, entry for entry. */
  lemma TailHashDeterminesLog(h: Hash, a: seq<Entry>, b: seq<Entry>)
    requires Injective(h) && Verifies(h, a) && Verifies(h, b)
    requires a != [] && b != [] && a[|a| - 1].entryHash == b[|b| - 1].entryHash
    ensures a == b
  {
    SameHashSamePast(h, a, b, |a| - 1, |b| - 1);
    assert a[..|a|] == a && b[..|b|] == b;
  }

  /** Any edit, reordering, insertion or deletion that leaves the tail hash alone breaks verification. */
  lemma TamperingIsDetected(h: Hash, original: seq<Entry>, tampered: seq<Entry>, v: Verification)
    requires Injective(h) && Verifies(h, original) && original != [] && tampered != []
    requires original[|original| - 1].entryHash == tampered[|tampered| - 1].entryHash
    requires tampered != original
    requires IsVerdict(h, tampered, v)
    ensures v.Broken?
  {
    if v.Intact? {
      TailHashDeterminesLog(h, original, tampered);
    }
  }

  // ---------------------------------------------------------------------------
  // What append keeps
  // ---------------------------------------------------------------------------

  lemma BreaksAreLocal(h: Hash, entries: seq<Entry>, e: Entry, i: nat)
    requires i < |entries|
    ensures BreakAt(h, entries + [e], i) == BreakAt(h, entries, i)
  {
  }

  /** Appending to a verifying log gives a verifying log, one longer. */
  lemma AppendKeepsVerifying(h: Hash, entries: seq<Entry>, ts: string, eventType: string, fingerprint: string,
                             payload: string)
    requires Verifies(h, entries)
    ensures Verifies(h, entries + [NextEntry(h, entries, ts, eventType, fingerprint, payload)])
  {
    var e := NextEntry(h, entries, ts, eventType, fingerprint, payload);
    var longer := entries + [e];
    if entries != [] {
      assert BreakAt(h, entries, |entries| - 1).None?;
    }
    forall i | 0 <= i < |longer| ensures BreakAt(h, longer, i).None? {
      if i < |entries| {
        BreaksAreLocal(h, entries, e, i);
      }
    }
  }

  /** Nothing appended to a broken log repairs it: the verdict stays the same, position and all. */
  lemma AppendKeepsBreak(h: Hash, entries: seq<Entry>, e: Entry, v: Verification)
    requires IsVerdict(h, entries, v) && v.Broken?
    ensures IsVerdict(h, entries + [e], v)
  {
    forall i | 0 <= i <= v.checked ensures BreakAt(h, entries + [e], i) == BreakAt(h, entries, i) {
      BreaksAreLocal(h, entries, e, i);
    }
  }

  datatype KeyEvent = KeyEvent(ts: string, eventType: string, fingerprint: string, payload: string)

  /** The log after a run of appends. */
  function AppendAll(h: Hash, entries: seq<Entry>, events: seq<KeyEvent>): seq<Entry>
    decreases |events|
  {
    if events == [] then entries
    else
      var k := events[0];
      AppendAll(h, entries + [NextEntry(h, entries, k.ts, k.eventType, k.fingerprint, k.payload)], events[1..])
  }

  /**
    Whatever is appended, the old entries stay a prefix; an intact log stays intact and grows by one
    entry an event, and the verdict on a broken log never changes again.
   */
  lemma {:induction false} VerdictOverRuns(h: Hash, entries: seq<Entry>, events: seq<KeyEvent>, v: Verification)
    requires IsVerdict(h, entries, v)
    ensures entries <= AppendAll(h, entries, events)
    ensures IsVerdict(h, AppendAll(h, entries, events), if v.Intact? then Intact(v.checked + |events|) else v)
    decreases |events|
  {
    if events != [] {
      var k := events[0];
      var e := NextEntry(h, entries, k.ts, k.eventType, k.fingerprint, k.payload);
      if v.Intact? {
        AppendKeepsVerifying(h, entries, k.ts, k.eventType, k.fingerprint, k.payload);
        VerdictOverRuns(h, entries + [e], events[1..], Intact(v.checked + 1));
      } else {
        AppendKeepsBreak(h, entries, e, v);
        VerdictOverRuns(h, entries + [e], events[1..], v);
      }
    }
  }
}
