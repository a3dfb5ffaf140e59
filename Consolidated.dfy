/**
 * The consolidated sector map that `sql_thread_update_sector_map` (sql.c)
 * sends to the database, and the return code and thread status that the
 * function reports. The database client is not part of this model: the
 * outcome of each library call is a parameter.
 */
module Consolidated {
  import Flags
  import opened Util

  /** Number of four-bit entries in the consolidated map. */
  const ENTRIES: nat := 10000

  /** Bytes of the consolidated map: two entries per byte. */
  const MAP_BYTES: nat := ENTRIES / 2 + ENTRIES % 2

  /** The value every entry starts from: WRITTEN_THIS_ROUND and READ_THIS_ROUND set. */
  const INITIAL_ENTRY: bv8 := 0x6

  /** The bits of an entry that are set if any sector of its block has them. */
  const ANY_MASK: bv8 := 0x09

  // ---------------------------------------------------------------------------
  // Entries

  /**
   * Folding one sector's flags into an entry: the bits of ANY_MASK are ORed
   * in, every other bit is ANDed.
   */
  function Fold(entry: bv8, flags: bv8): bv8
  {
    (entry & flags) | ((entry | flags) & ANY_MASK)
  }

  /** Folding keeps an entry within four bits and treats each flag bit as the masks say. */
  lemma FoldBits(entry: bv8, flags: bv8)
    requires entry <= 0xF
    ensures Fold(entry, flags) <= 0xF
    ensures Fold(entry, flags) & Flags.FAILED == (entry | flags) & Flags.FAILED
    ensures Fold(entry, flags) & Flags.DO_NOT_USE == (entry | flags) & Flags.DO_NOT_USE
    ensures Fold(entry, flags) & Flags.WRITTEN_THIS_ROUND == entry & flags & Flags.WRITTEN_THIS_ROUND
    ensures Fold(entry, flags) & Flags.READ_THIS_ROUND == entry & flags & Flags.READ_THIS_ROUND
  {
  }

  /** The entry summarising sectors lo .. hi - 1: INITIAL_ENTRY with each sector folded in, in order. */
  function Accumulated(s: seq<bv8>, lo: nat, hi: nat): bv8
    requires hi <= |s|
    decreases hi
  {
    if hi <= lo then INITIAL_ENTRY else Fold(Accumulated(s, lo, hi - 1), s[hi - 1])
  }

  /**
   * An entry has FAILED or DO_NOT_USE set exactly when some sector of its
   * block has it, and WRITTEN_THIS_ROUND or READ_THIS_ROUND exactly when
   * every sector of its block has it.
   */
  lemma {:induction false} AccumulatedBits(s: seq<bv8>, lo: nat, hi: nat)
    requires hi <= |s|
    ensures Accumulated(s, lo, hi) <= 0xF
    ensures Accumulated(s, lo, hi) & Flags.FAILED != 0 <==> exists j :: lo <= j < hi && s[j] & Flags.FAILED != 0
    ensures Accumulated(s, lo, hi) & Flags.DO_NOT_USE != 0 <==> exists j :: lo <= j < hi && s[j] & Flags.DO_NOT_USE != 0
    ensures Accumulated(s, lo, hi) & Flags.WRITTEN_THIS_ROUND != 0 <==> forall j :: lo <= j < hi ==> s[j] & Flags.WRITTEN_THIS_ROUND != 0
    ensures Accumulated(s, lo, hi) & Flags.READ_THIS_ROUND != 0 <==> forall j :: lo <= j < hi ==> s[j] & Flags.READ_THIS_ROUND != 0
    decreases hi
  {
    if hi > lo {
      AccumulatedBits(s, lo, hi - 1);
      var e := Accumulated(s, lo, hi - 1);
      FoldBits(e, s[hi - 1]);
      var f := s[hi - 1];
      assert (e | f) & Flags.FAILED != 0 <==> e & Flags.FAILED != 0 || f & Flags.FAILED != 0;
      assert (e | f) & Flags.DO_NOT_USE != 0 <==> e & Flags.DO_NOT_USE != 0 || f & Flags.DO_NOT_USE != 0;
      assert e & f & Flags.WRITTEN_THIS_ROUND != 0 <==> e & Flags.WRITTEN_THIS_ROUND != 0 && f & Flags.WRITTEN_THIS_ROUND != 0;
      assert e & f & Flags.READ_THIS_ROUND != 0 <==> e & Flags.READ_THIS_ROUND != 0 && f & Flags.READ_THIS_ROUND != 0;
    }
  }

  /** Sectors summarised by each entry: n / ENTRIES. */
  function SectorsPerEntry(n: nat): nat
  {
    n / ENTRIES
  }

  /** Every block lies inside the map; the last n mod ENTRIES sectors belong to no entry. */
  lemma BlockInsideMap(n: nat, i: nat)
    requires i < ENTRIES
    ensures SectorsPerEntry(n) * i <= SectorsPerEntry(n) * (i + 1) <= SectorsPerEntry(n) * ENTRIES <= n
  {
    var spb := SectorsPerEntry(n);
    MulMonotone(spb, i, i + 1);
    MulMonotone(spb, i + 1, ENTRIES);
  }


  /** Entry i of the consolidated map of the first n sectors of s. */
  function Entry(s: seq<bv8>, n: nat, i: nat): bv8
    requires n <= |s| && i < ENTRIES
  {
    BlockInsideMap(n, i);
    Accumulated(s, SectorsPerEntry(n) * i, SectorsPerEntry(n) * (i + 1))
  }

  /** With fewer sectors than entries every block is empty, so every entry stays INITIAL_ENTRY. */
  lemma SmallDeviceEntries(s: seq<bv8>, n: nat, i: nat)
    requires n <= |s| && n < ENTRIES && i < ENTRIES
    ensures Entry(s, n, i) == INITIAL_ENTRY
  {
  }

  /** A byte holding two entries: the even one in the high nibble, the odd one in the low nibble. */
  function PackEntries(high: bv8, low: bv8): bv8
  {
    (high << 4) | low
  }

  /** The entry stored for index i of a consolidated map. */
  function StoredEntry(m: seq<bv8>, i: nat): bv8
    requires i / 2 < |m|
  {
    if i % 2 == 0 then m[i / 2] >> 4 else m[i / 2] & 0x0F
  }

  /** Reading back the two nibbles of a packed byte. */
  lemma PackEntriesNibbles(high: bv8, low: bv8)
    requires high <= 0xF && low <= 0xF
    ensures PackEntries(high, low) >> 4 == high && PackEntries(high, low) & 0x0F == low
  {
  }

  /** The update of an even entry as written: only the high nibble changes, to the fold. */
  lemma EvenUpdate(high: bv8, low: bv8, f: bv8)
    requires high <= 0xF && low <= 0xF
    ensures var b := PackEntries(high, low);
      (b & 0x0F) | ((((b >> 4) & f) | (((b >> 4) | f) & ANY_MASK)) << 4) == PackEntries(Fold(high, f), low)
  {
  }

  /** The update of an odd entry as written: only the low nibble changes, to the fold. */
  lemma OddUpdate(high: bv8, low: bv8, f: bv8)
    requires high <= 0xF && low <= 0xF
    ensures var b := PackEntries(high, low);
      (b & 0xF0) | ((b & f) | (((b & 0x0F) | f) & ANY_MASK)) == PackEntries(high, Fold(low, f))
  {
  }

  // ---------------------------------------------------------------------------
  // Building the map

  /** Folds sectors lo .. hi - 1 into one nibble of byte `at`, as the inner loop of sql.c does. */
  method FoldBlock(m: array<bv8>, at: nat, even: bool, s: array<bv8>, lo: nat, hi: nat, n: nat, ghost high: bv8, ghost low: bv8)
    requires at < m.Length && m != s && lo <= hi <= n <= s.Length
    requires high <= 0xF && low <= 0xF
    requires m[at] == if even then PackEntries(INITIAL_ENTRY, low) else PackEntries(high, INITIAL_ENTRY)
    modifies m
    ensures m[at] == if even then PackEntries(Accumulated(s[..], lo, hi), low) else PackEntries(high, Accumulated(s[..], lo, hi))
    ensures forall b :: 0 <= b < m.Length && b != at ==> m[b] == old(m[b])
  {
    var j := lo;
    while j < hi && j < n
      invariant lo <= j <= hi
      invariant m[at] == if even then PackEntries(Accumulated(s[..], lo, j), low) else PackEntries(high, Accumulated(s[..], lo, j))
      invariant forall b :: 0 <= b < m.Length && b != at ==> m[b] == old(m[b])
    {
      AccumulatedBits(s[..], lo, j);
      var b := m[at];
      if even {
        EvenUpdate(Accumulated(s[..], lo, j), low, s[j]);
        m[at] := (b & 0x0F) | ((((b >> 4) & s[j]) | (((b >> 4) | s[j]) & ANY_MASK)) << 4);
      } else {
        OddUpdate(high, Accumulated(s[..], lo, j), s[j]);
        m[at] := (b & 0xF0) | ((b & s[j]) | (((b & 0x0F) | s[j]) & ANY_MASK));
      }
      j := j + 1;
    }
  }

  /** Byte b of the consolidated map of the first n sectors of s: entries 2b and 2b + 1. */
  function MapByte(s: seq<bv8>, n: nat, b: nat): bv8
    requires n <= |s| && b < MAP_BYTES
  {
    PackEntries(Entry(s, n, 2 * b), Entry(s, n, 2 * b + 1))
  }

  /** Reading an entry back from its byte gives the entry. */
  lemma MapByteEntries(s: seq<bv8>, n: nat, i: nat)
    requires n <= |s| && i < ENTRIES
    ensures (if i % 2 == 0 then MapByte(s, n, i / 2) >> 4 else MapByte(s, n, i / 2) & 0x0F) == Entry(s, n, i)
  {
    var b := i / 2;
    BlockInsideMap(n, 2 * b);
    BlockInsideMap(n, 2 * b + 1);
    AccumulatedBits(s, SectorsPerEntry(n) * (2 * b), SectorsPerEntry(n) * (2 * b + 1));
    AccumulatedBits(s, SectorsPerEntry(n) * (2 * b + 1), SectorsPerEntry(n) * (2 * b + 2));
    PackEntriesNibbles(Entry(s, n, 2 * b), Entry(s, n, 2 * b + 1));
  }

  /** One iteration of the outer loop: entry i is folded into its nibble; an even entry first resets its byte to 0x66. */
  method ConsolidateEntry(m: array<bv8>, s: array<bv8>, n: nat, i: nat)
    requires m.Length == MAP_BYTES && m != s && n <= s.Length && i < ENTRIES
    requires i % 2 == 1 ==> m[i / 2] == PackEntries(Entry(s[..], n, i - 1), INITIAL_ENTRY)
    modifies m
    ensures m[i / 2] == if i % 2 == 0 then PackEntries(Entry(s[..], n, i), INITIAL_ENTRY) else MapByte(s[..], n, i / 2)
    ensures forall b :: 0 <= b < m.Length && b != i / 2 ==> m[b] == old(m[b])
  {
    var spb := SectorsPerEntry(n);
    BlockInsideMap(n, i);
    if i % 2 == 0 {
      m[i / 2] := 0x66;
      FoldBlock(m, i / 2, true, s, spb * i, spb * (i + 1), n, INITIAL_ENTRY, INITIAL_ENTRY);
    } else {
      BlockInsideMap(n, i - 1);
      AccumulatedBits(s[..], spb * (i - 1), spb * i);
      FoldBlock(m, i / 2, false, s, spb * i, spb * (i + 1), n, Entry(s[..], n, i - 1), INITIAL_ENTRY);
    }
  }

  /**
   * The construction loop of `sql_thread_update_sector_map`: each entry
   * summarises its block of the first n sectors of the sector map.
   */
  method ConsolidateSectorMap(s: array<bv8>, n: nat) returns (m: array<bv8>)
    requires n <= s.Length
    ensures fresh(m) && m.Length == MAP_BYTES
    ensures forall b :: 0 <= b < MAP_BYTES ==> m[b] == MapByte(s[..], n, b)
  {
    m := new bv8[MAP_BYTES](_ => 0);
    var i := 0;
    while i < ENTRIES
      invariant i <= ENTRIES
      invariant forall b :: 0 <= b < i / 2 ==> m[b] == MapByte(s[..], n, b)
      invariant i % 2 == 1 ==> m[i / 2] == PackEntries(Entry(s[..], n, i - 1), INITIAL_ENTRY)
    {
      ConsolidateEntry(m, s, n, i);
      i := i + 1;
    }
  }

  /** Every entry of the built map reads back as the summary of its block. */
  lemma ConsolidatedEntries(m: seq<bv8>, s: seq<bv8>, n: nat)
    requires n <= |s| && |m| == MAP_BYTES
    requires forall b :: 0 <= b < MAP_BYTES ==> m[b] == MapByte(s, n, b)
    ensures forall i :: 0 <= i < ENTRIES ==> StoredEntry(m, i) == Entry(s, n, i)
  {
    forall i | 0 <= i < ENTRIES
      ensures StoredEntry(m, i) == Entry(s, n, i)
    {
      MapByteEntries(s, n, i);
    }
  }

  // ---------------------------------------------------------------------------
  // Return code and thread status

  /** The states of the database thread (sql.h). */
  datatype SqlThreadStatus = NotConnected | Connecting | Connected | Disconnected | QueryExecuting | Error

  /** How a database call ended: success, one of the three lost-connection errors, or any other error. */
  datatype CallOutcome = Succeeded | ConnectionLost | OtherFailure

  /** The outcome of every fallible step, in the order the function takes them. */
  datatype StepOutcomes = StepOutcomes(
    mapAllocated: bool, timeRead: bool, clockRead: bool, statementCreated: bool,
    prepare: CallOutcome, bound: bool, sendLongData: CallOutcome, execute: CallOutcome)

  /** A failed prepare, send or execute: 1 for a lost connection, -1 otherwise. */
  function FailureCode(outcome: CallOutcome): int
    requires outcome != Succeeded
  {
    if outcome == ConnectionLost then 1 else -1
  }

  /** The status a failed prepare, send or execute leaves. */
  function FailureStatus(outcome: CallOutcome): SqlThreadStatus
    requires outcome != Succeeded
  {
    if outcome == ConnectionLost then Disconnected else Error
  }

  /** The steps before the execute call all succeeded. */
  predicate ReachesExecute(o: StepOutcomes)
  {
    o.mapAllocated && o.timeRead && o.clockRead && o.statementCreated &&
    o.prepare == Succeeded && o.bound && o.sendLongData == Succeeded
  }

  /** The thread status after the function, from the status before it. */
  function StatusAfter(before: SqlThreadStatus, o: StepOutcomes): SqlThreadStatus
  {
    if !(o.mapAllocated && o.timeRead && o.clockRead && o.statementCreated) then before
    else if o.prepare != Succeeded then FailureStatus(o.prepare)
    else if !o.bound then before
    else if o.sendLongData != Succeeded then FailureStatus(o.sendLongData)
    else if o.execute != Succeeded then FailureStatus(o.execute)
    else Connected
  }

  /** The return code as written: the execute path computes a code and then returns 0. */
  function ReturnCodeAsWritten(o: StepOutcomes): int
  {
    if !(o.mapAllocated && o.timeRead && o.clockRead && o.statementCreated) then -1
    else if o.prepare != Succeeded then FailureCode(o.prepare)
    else if !o.bound then -1
    else if o.sendLongData != Succeeded then FailureCode(o.sendLongData)
    else 0
  }

  /** The return code the execute path computes and evidently means to return. */
  function ReturnCode(o: StepOutcomes): int
  {
    if ReachesExecute(o) && o.execute != Succeeded then FailureCode(o.execute) else ReturnCodeAsWritten(o)
  }

  /** With the corrected return, 1 means exactly that the connection was lost, and 0 that the update went through. */
  lemma ReturnCodeMatchesStatus(before: SqlThreadStatus, o: StepOutcomes)
    ensures ReturnCode(o) in {-1, 0, 1}
    ensures StatusAfter(before, o) == Disconnected && before != Disconnected ==> ReturnCode(o) == 1
    ensures ReturnCode(o) == 0 <==> ReachesExecute(o) && o.execute == Succeeded
    ensures ReturnCode(o) == 0 ==> StatusAfter(before, o) == Connected
    ensures ReturnCode(o) == 1 ==> StatusAfter(before, o) == Disconnected
    ensures ReturnCode(o) == -1 ==> StatusAfter(before, o) in {before, Error}
  {
  }

  /** As written, an execute that loses the connection reports success while the status says disconnected. */
  lemma ExecuteFailureReportedAsSuccess(before: SqlThreadStatus)
    ensures var o := StepOutcomes(true, true, true, true, Succeeded, true, Succeeded, ConnectionLost);
      ReturnCodeAsWritten(o) == 0 && StatusAfter(before, o) == Disconnected && ReturnCode(o) == 1
  {
  }

  /** The two return codes differ only when the execute call itself fails. */
  lemma ReturnCodesAgreeElsewhere(o: StepOutcomes)
    ensures ReturnCode(o) != ReturnCodeAsWritten(o) <==> ReachesExecute(o) && o.execute != Succeeded
  {
  }

  /** The database thread's shared status. */
  class SqlThread {
    var status: SqlThreadStatus

    constructor()
      ensures status == NotConnected
    {
      status := NotConnected;
    }

    /**
     * `sql_thread_update_sector_map` with the execute path's code returned:
     * builds the consolidated map when the allocation succeeds, then walks
     * the database steps, setting the status as it goes.
     */
    method UpdateSectorMap(s: array<bv8>, n: nat, o: StepOutcomes) returns (r: int, sent: Option<seq<bv8>>)
      requires n <= s.Length
      modifies this`status
      ensures r == ReturnCode(o)
      ensures status == StatusAfter(old(status), o)
      ensures sent.Some? <==> o.mapAllocated && o.timeRead && o.clockRead && o.statementCreated && o.prepare == Succeeded && o.bound
      ensures sent.Some? ==> |sent.value| == MAP_BYTES && forall b :: 0 <= b < MAP_BYTES ==> sent.value[b] == MapByte(s[..], n, b)
    {
      sent := None;
      if !o.mapAllocated {
        return -1, sent;
      }
      var m := ConsolidateSectorMap(s, n);
      if !o.timeRead || !o.clockRead || !o.statementCreated {
        return -1, sent;
      }
      if o.prepare != Succeeded {
        status := FailureStatus(o.prepare);
        return FailureCode(o.prepare), sent;
      }
      if !o.bound {
        return -1, sent;
      }
      status := QueryExecuting;
      sent := Some(m[..]);
      if o.sendLongData != Succeeded {
        status := FailureStatus(o.sendLongData);
        return FailureCode(o.sendLongData), sent;
      }
      if o.execute != Succeeded {
        status := FailureStatus(o.execute);
        r := FailureCode(o.execute);
      } else {
        status := Connected;
        r := 0;
      }
    }

    /** The execute path as written: whatever the execute call did, the function returns 0. */
    method UpdateSectorMapAsWritten(s: array<bv8>, n: nat, o: StepOutcomes) returns (r: int)
      requires n <= s.Length
      modifies this`status
      ensures r == ReturnCodeAsWritten(o)
      ensures status == StatusAfter(old(status), o)
    {
      var ret, sent := UpdateSectorMap(s, n, o);
      r := if ReachesExecute(o) then 0 else ret;
    }
  }

  datatype Option<T> = None | Some(value: T)
}
