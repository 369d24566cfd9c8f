/** The capped output stream (SharedStream in piscis-kernel/src/background.rs) and a polling reader. */
module Stream {
  import opened Common

  const STREAM_RING_CAP: nat := 256 * 1024
  const LOG_FILE_CAP_BYTES: nat := 8 * 1024 * 1024

  /** What a reader holding absolute cursor `c` gets from a stream that has seen `h` and keeps `cap` bytes. */
  datatype Reading = Reading(data: Bytes, total: nat, truncated: bool)

  function Base(h: Bytes, cap: nat): nat {
    if |h| <= cap then 0 else |h| - cap
  }

  function ReadAt(h: Bytes, cap: nat, c: nat): Reading {
    Reading(h[Min(Max(c, Base(h, cap)), |h|)..], |h|, c < Base(h, cap))
  }

  class SharedStream {
    var bytes: Bytes
    var total: nat
    var log: Option<Bytes>
    var logBytes: nat
    ghost var history: Bytes

    ghost predicate Valid()
      reads this
    {
      && bytes == Newest(history, STREAM_RING_CAP)
      && total == |history|
      && logBytes <= LOG_FILE_CAP_BYTES
    }

    /** The log file holds the start of the history, up to its cap. */
    ghost predicate LogFaithful()
      reads this
    {
      log.Some? && logBytes == |log.value| && log.value == history[..Min(|history|, LOG_FILE_CAP_BYTES)]
    }

    constructor ()
      ensures Valid() && history == [] && log == None
    {
      bytes, total, log, logBytes, history := [], 0, None, 0, [];
    }

    /** A log attached before the first byte is faithful from the start. */
    method SetLogFile()
      requires Valid()
      modifies this`log
      ensures Valid() && log == Some([])
      ensures history == [] && logBytes == 0 ==> LogFaithful()
    {
      log := Some([]);
    }

    /** `logOk` is whether the write to the log file succeeds. */
    method Append(chunk: Bytes, logOk: bool)
      requires Valid()
      modifies this
      ensures Valid() && history == old(history) + chunk
      ensures old(LogFaithful()) && logOk ==> LogFaithful()
      ensures !logOk ==> log == old(log)
    {
      total := total + |chunk|;
      WriteLog(chunk, logOk);
      PushRing(chunk);
      LastAppend(history, chunk, STREAM_RING_CAP);
      PrefixAppend(history, chunk, LOG_FILE_CAP_BYTES);
      history := history + chunk;
    }

    /** The log takes what still fits under its cap. */
    method WriteLog(chunk: Bytes, logOk: bool)
      requires logBytes <= LOG_FILE_CAP_BYTES
      modifies this`log, this`logBytes
      ensures logBytes <= LOG_FILE_CAP_BYTES
      ensures var slice := chunk[..Min(|chunk|, LOG_FILE_CAP_BYTES - old(logBytes))];
              if old(log).Some? && logOk then log == Some(old(log).value + slice) && logBytes == old(logBytes) + |slice|
              else log == old(log) && logBytes == old(logBytes)
    {
      var room := LOG_FILE_CAP_BYTES - logBytes;
      var written := 0;
      assert log.Some? ==> log.value + chunk[..0] == log.value;
      if room > 0 && log.Some? && logOk {
        var slice := chunk[..Min(|chunk|, room)];
        log := Some(log.value + slice);
        written := |slice|;
      }
      logBytes := logBytes + written;
    }

    method PushRing(chunk: Bytes)
      modifies this`bytes
      ensures bytes == Newest(old(bytes) + chunk, STREAM_RING_CAP)
    {
      bytes := bytes + chunk;
      if |bytes| > STREAM_RING_CAP {
        var drop := |bytes| - STREAM_RING_CAP;
        bytes := bytes[drop..];
      }
    }

    method ReadFrom(cursor: nat) returns (data: Bytes, seen: nat, truncated: bool)
      requires Valid()
      ensures Reading(data, seen, truncated) == ReadAt(history, STREAM_RING_CAP, cursor)
      ensures data == if cursor <= |history| then Newest(history[cursor..], 0x4_0000) else []
      ensures seen == |history| && (truncated <==> |history| > cursor + 0x4_0000)
    {
      ReadGivesTheRest(history, STREAM_RING_CAP, cursor);
      var base := total - |bytes|;
      truncated := cursor < base;
      var start := Max(cursor, base);
      var offset := start - base;
      data := bytes[Min(offset, |bytes|)..];
      seen := total;
    }

    method Tail(max: nat) returns (data: Bytes)
      requires Valid()
      ensures data == Newest(history, Min(max, STREAM_RING_CAP))
    {
      var start := if |bytes| > max then |bytes| - max else 0;
      data := bytes[start..];
    }
  }

  /**
   * A read gives what is retained of everything past the cursor: all of it, or the last `cap` bytes of it if
   * there is more, which is when, and only when, it reports truncation.
   */
  lemma ReadGivesTheRest(h: Bytes, cap: nat, c: nat)
    ensures ReadAt(h, cap, c) == Reading(if c <= |h| then Newest(h[c..], cap) else [], |h|, |h| > c + cap)
  {
    if c <= |h| && |h| - c > cap {
      assert h[c..][|h| - c - cap..] == h[|h| - cap..];
    }
  }

  /** Appending what still fits to the kept head is keeping the head of the longer history. */
  lemma PrefixAppend(h: Bytes, chunk: Bytes, cap: nat)
    ensures var kept := h[..Min(|h|, cap)];
            kept + chunk[..Min(|chunk|, cap - |kept|)] == (h + chunk)[..Min(|h + chunk|, cap)]
  {
  }

  /** Appending to the kept tail and trimming is keeping the tail of the longer history. */
  lemma LastAppend(h: Bytes, chunk: Bytes, cap: nat)
    ensures Newest(Newest(h, cap) + chunk, cap) == Newest(h + chunk, cap)
  {
  }

  // ----- A reader that feeds the returned total back as its next cursor

  datatype Step = Append(chunk: Bytes) | Poll

  datatype Session = Session(history: Bytes, cursor: nat, got: Bytes, missed: bool)

  function Next(s: Session, cap: nat, step: Step): Session {
    match step
    case Append(chunk) => s.(history := s.history + chunk)
    case Poll =>
      var r := ReadAt(s.history, cap, s.cursor);
      Session(s.history, r.total, s.got + r.data, s.missed || r.truncated)
  }

  function Run(s: Session, cap: nat, steps: seq<Step>): Session
    decreases |steps|
  {
    if steps == [] then s else Run(Next(s, cap, steps[0]), cap, steps[1..])
  }

  ghost predicate SessionOk(s: Session) {
    && s.cursor <= |s.history|
    && |s.got| <= s.cursor
    && (s.got == s.history[..s.cursor] <==> !s.missed)
    && (s.missed ==> |s.got| < s.cursor)
  }

  lemma StepKeepsSession(s: Session, cap: nat, step: Step)
    requires SessionOk(s)
    ensures SessionOk(Next(s, cap, step))
  {
    var s' := Next(s, cap, step);
    match step
    case Append(chunk) => assert s'.history[..s.cursor] == s.history[..s.cursor];
    case Poll =>
      assert s'.history[..s'.cursor] == s.history;
      if !s.missed && s.cursor >= Base(s.history, cap) {
        assert s.history[..s.cursor] + s.history[s.cursor..] == s.history;
      }
  }

  /**
   * For every interleaving of appends and polls, whatever the cap: the bytes collected are exactly the
   * history up to the cursor if and only if no poll reported truncation.
   */
  lemma {:induction false} ReaderRebuildsHistoryIff(s: Session, cap: nat, steps: seq<Step>)
    requires SessionOk(s)
    ensures SessionOk(Run(s, cap, steps))
    decreases |steps|
  {
    if steps != [] {
      StepKeepsSession(s, cap, steps[0]);
      ReaderRebuildsHistoryIff(Next(s, cap, steps[0]), cap, steps[1..]);
    }
  }

  lemma {:induction false} RunHistory(s: Session, cap: nat, steps: seq<Step>, last: Step)
    ensures Run(s, cap, steps + [last]) == Next(Run(s, cap, steps), cap, last)
    decreases |steps|
  {
    if steps == [] {
      assert steps + [last] == [last] && [last][1..] == [];
    } else {
      assert (steps + [last])[1..] == steps[1..] + [last];
      RunHistory(Next(s, cap, steps[0]), cap, steps[1..], last);
    }
  }

  /** In particular a reader that polls before more than `cap` bytes have come misses nothing. */
  lemma PollMissesIff(s: Session, cap: nat)
    ensures var s' := Next(s, cap, Poll);
            && s'.cursor == |s.history|
            && s'.got == s.got + (if s.cursor <= |s.history| then Newest(s.history[s.cursor..], cap) else [])
            && (s'.missed <==> s.missed || |s.history| > s.cursor + cap)
  {
    ReadGivesTheRest(s.history, cap, s.cursor);
  }

  /** After a final poll the reader has the whole history, if and only if nothing was ever truncated. */
  lemma FinalPollHasEverythingIff(cap: nat, steps: seq<Step>)
    ensures var s := Run(Session([], 0, [], false), cap, steps + [Poll]);
            s.got == s.history <==> !s.missed
  {
    var start := Session([], 0, [], false);
    ReaderRebuildsHistoryIff(start, cap, steps + [Poll]);
    RunHistory(start, cap, steps, Poll);
    var s := Run(start, cap, steps + [Poll]);
    assert s.history[..s.cursor] == s.history;
  }
}
