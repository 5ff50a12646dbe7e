/** What a reader makes of any log, damaged or not: which fragments make up a record, and what it reports
    (db/log_reader.cc). */
module LogFragments {
  import opened ByteStrings
  import opened Wrappers
  import opened LogFormat

  /** The fragments that reading a file one by one finds, good or bad, up to its end. */
  function Fragments(s: Bytes, offset: nat): (r: seq<Outcome>)
    requires offset <= BLOCK_SIZE
    ensures forall i :: 0 <= i < |r| ==> !r[i].Eof?
    decreases |s|
  {
    var p := ReadPhysical(s, offset);
    if p.outcome.Eof? then [] else [p.outcome] + Fragments(p.rest, p.offset)
  }

  predicate IsKind(f: Outcome, kind: byte) {
    f.Found? && f.kind == kind
  }

  /** A first fragment and middle ones, from `a` up to `b`: a record has begun and goes on. */
  predicate IsRun(fs: seq<Outcome>, a: nat, b: nat) {
    a < b <= |fs| && IsKind(fs[a], FIRST) && forall i :: a < i < b ==> IsKind(fs[i], MIDDLE)
  }

  /** The data of fragments, one after the other. */
  function Together(fs: seq<Outcome>, a: nat, b: nat): Bytes
    requires a <= b <= |fs| && forall i :: a <= i < b ==> fs[i].Found?
  {
    if a == b then [] else Together(fs, a, b - 1) + fs[b - 1].data
  }

  /** The run that ends before `b`, if there is one. */
  function RunBefore(fs: seq<Outcome>, b: nat): (a: Option<nat>)
    requires b <= |fs|
    ensures a.Some? ==> IsRun(fs, a.value, b)
    ensures a.None? ==> forall m: nat :: !IsRun(fs, m, b)
  {
    if b > 0 && IsKind(fs[b - 1], FIRST) then Some(b - 1)
    else if b > 0 && IsKind(fs[b - 1], MIDDLE) then
      assert forall m: nat :: IsRun(fs, m, b) ==> IsRun(fs, m, b - 1);
      RunBefore(fs, b - 1)
    else None
  }

  /** The record that fragment `b` ends: a full one by itself, a last one together with the run before it. */
  function RecordAt(fs: seq<Outcome>, b: nat): Option<Bytes>
    requires b < |fs|
  {
    if IsKind(fs[b], FULL) then Some(fs[b].data)
    else if IsKind(fs[b], LAST) && RunBefore(fs, b).Some? then Some(Together(fs, RunBefore(fs, b).value, b + 1))
    else None
  }

  function RecordsTo(fs: seq<Outcome>, n: nat): seq<Bytes>
    requires n <= |fs|
  {
    if n == 0 then []
    else RecordsTo(fs, n - 1) + if RecordAt(fs, n - 1).Some? then [RecordAt(fs, n - 1).value] else []
  }

  /** What is reported: a fragment that is bad or of no known kind, one that goes on or ends with nothing begun, and a
      record that breaks off, unless it was empty so far and what follows is in order. */
  predicate Complains(fs: seq<Outcome>, b: nat)
    requires b < |fs|
  {
    var run := RunBefore(fs, b);
    match fs[b]
    case Eof => false
    case Bad(reported) => reported || run.Some?
    case Found(kind, _) =>
      if kind == FULL || kind == FIRST then run.Some? && Together(fs, run.value, b) != []
      else if kind == MIDDLE || kind == LAST then run.None?
      else true
  }

  // ---- the reader ----

  /** Reading on in the middle of a record. */
  function ReadOn(s: Bytes, offset: nat, scratch: Bytes, inRecord: bool): LogRead
    requires offset <= BLOCK_SIZE
  {
    var r := ReadLogical(s, offset, scratch, inRecord);
    if r.record.None? then LogRead([], r.reported)
    else
      var more := ReadAll(r.rest, r.offset);
      LogRead([r.record.value] + more.records, r.reported || more.reported)
  }

  /** The reader holds the data of the run before fragment `n`. */
  predicate Holds(fs: seq<Outcome>, n: nat, scratch: Bytes, inRecord: bool)
    requires n <= |fs|
  {
    match RunBefore(fs, n)
    case None => !inRecord
    case Some(a) => inRecord && scratch == Together(fs, a, n)
  }

  ghost predicate ComplainsFrom(fs: seq<Outcome>, n: nat) {
    exists b :: n <= b < |fs| && Complains(fs, b)
  }

  lemma ComplainsStep(fs: seq<Outcome>, n: nat)
    requires n < |fs|
    ensures ComplainsFrom(fs, n) <==> Complains(fs, n) || ComplainsFrom(fs, n + 1)
  {
    hide Complains;
  }

  lemma FragmentsStep(s: Bytes, offset: nat, fs: seq<Outcome>, n: nat)
    requires offset <= BLOCK_SIZE && n <= |fs| && fs[n..] == Fragments(s, offset)
    ensures var p := ReadPhysical(s, offset);
            if p.outcome.Eof? then n == |fs|
            else n < |fs| && fs[n] == p.outcome && fs[n + 1..] == Fragments(p.rest, p.offset)
  {
    hide ReadPhysical;
    var p := ReadPhysical(s, offset);
    if !p.outcome.Eof? {
      assert fs[n..][0] == fs[n] && fs[n..][1..] == fs[n + 1..];
    }
  }

  /** What the reader holds after one more fragment, and whether a record is begun. */
  function Held(f: Outcome, scratch: Bytes, inRecord: bool): (Bytes, bool) {
    if IsKind(f, FIRST) then (f.data, true)
    else if IsKind(f, MIDDLE) && inRecord then (scratch + f.data, true)
    else if IsKind(f, MIDDLE) || (IsKind(f, LAST) && !inRecord) then (scratch, false)
    else ([], false)
  }

  /** The record it has then read, if any. */
  function Ended(f: Outcome, scratch: Bytes, inRecord: bool): seq<Bytes> {
    if IsKind(f, FULL) then [f.data] else if IsKind(f, LAST) && inRecord then [scratch + f.data] else []
  }

  /** And whether it has reported something. */
  predicate Reports(f: Outcome, scratch: Bytes, inRecord: bool)
    requires !f.Eof?
  {
    if f.Bad? then f.reported || inRecord
    else if f.kind == FULL || f.kind == FIRST then inRecord && scratch != []
    else if f.kind == MIDDLE || f.kind == LAST then !inRecord
    else true
  }

  lemma HoldsNext(fs: seq<Outcome>, n: nat, scratch: Bytes, inRecord: bool)
    requires n < |fs| && Holds(fs, n, scratch, inRecord) && !fs[n].Eof?
    ensures var h := Held(fs[n], scratch, inRecord); Holds(fs, n + 1, h.0, h.1)
    ensures RecordsTo(fs, n + 1) == RecordsTo(fs, n) + Ended(fs[n], scratch, inRecord)
    ensures Complains(fs, n) <==> Reports(fs[n], scratch, inRecord)
  {
    if IsKind(fs[n], FIRST) {
      assert Together(fs, n, n + 1) == Together(fs, n, n) + fs[n].data;
    }
  }

  lemma ReadOnStep(s: Bytes, offset: nat, scratch: Bytes, inRecord: bool)
    requires offset <= BLOCK_SIZE
    ensures var p, r := ReadPhysical(s, offset), ReadOn(s, offset, scratch, inRecord);
            if p.outcome.Eof? then r == LogRead([], false)
            else
              var h := Held(p.outcome, scratch, inRecord);
              var next := ReadOn(p.rest, p.offset, h.0, h.1);
              && r.records == Ended(p.outcome, scratch, inRecord) + next.records
              && r.reported == (next.reported || Reports(p.outcome, scratch, inRecord))
  {
    hide ReadPhysical;
  }

  /** Wherever it is, the reader goes on to return the records that end further on, and to report what is wrong there. */
  lemma {:induction false} ReadOnIs(s: Bytes, offset: nat, fs: seq<Outcome>, n: nat, scratch: Bytes, inRecord: bool)
    requires offset <= BLOCK_SIZE && n <= |fs| && fs[n..] == Fragments(s, offset) && Holds(fs, n, scratch, inRecord)
    ensures var r := ReadOn(s, offset, scratch, inRecord);
            RecordsTo(fs, n) + r.records == RecordsTo(fs, |fs|) && (r.reported <==> ComplainsFrom(fs, n))
    decreases |s|
  {
    hide ReadPhysical, Holds, RunBefore, ReadOn, Complains, Held, Ended, Reports, RecordsTo;
    FragmentsStep(s, offset, fs, n);
    ReadOnStep(s, offset, scratch, inRecord);
    var p := ReadPhysical(s, offset);
    if !p.outcome.Eof? {
      ComplainsStep(fs, n);
      HoldsNext(fs, n, scratch, inRecord);
      hide Fragments, ComplainsFrom;
      var h := Held(p.outcome, scratch, inRecord);
      ReadOnIs(p.rest, p.offset, fs, n + 1, h.0, h.1);
    }
  }

  /** On any bytes, the reader returns the records that are there in full, and reports exactly what is wrong. */
  lemma ReadAllIs(s: Bytes)
    ensures var fs := Fragments(s, 0);
            && ReadAll(s, 0).records == RecordsTo(fs, |fs|)
            && (ReadAll(s, 0).reported <==> exists b :: 0 <= b < |fs| && Complains(fs, b))
  {
    var fs := Fragments(s, 0);
    assert fs[0..] == fs;
    ReadOnIs(s, 0, fs, 0, [], false);
    assert ReadAll(s, 0) == ReadOn(s, 0, [], false);
  }
}
