/** FindFullDisks: reads a list of devices, then visits them with at most `maxParallel` child processes at a time. */
module Scheduler {
  import opened Sequences

  datatype Device = Device(eddieName: string, hostname: string)

  /** Sizes of the two character arrays in `struct Device`, terminator included. */
  const EDDIE_NAME_SIZE := 16
  const HOSTNAME_SIZE := 27

  type Row = seq<string>

  predicate Good(row: Row) { |row| == 2 && |row[0]| < EDDIE_NAME_SIZE && |row[1]| < HOSTNAME_SIZE }

  /** The devices of all rows before the first one that is not good. */
  function Listed(rows: seq<Row>): seq<Device> {
    if rows == [] || !Good(rows[0]) then [] else [Device(rows[0][0], rows[0][1])] + Listed(rows[1..])
  }

  predicate AllGood(rows: seq<Row>) { forall k :: 0 <= k < |rows| ==> Good(rows[k]) }

  lemma {:induction false} ListedMore(rows: seq<Row>, row: Row)
    ensures Listed(rows + [row])
         == if AllGood(rows) && Good(row) then Listed(rows) + [Device(row[0], row[1])] else Listed(rows)
  {
    if rows == [] {
      assert rows + [row] == [row];
    } else {
      assert (rows + [row])[1..] == rows[1..] + [row];
      ListedMore(rows[1..], row);
      assert Good(rows[0]) && AllGood(rows[1..]) ==> AllGood(rows);
    }
  }

  /** `children`: the devices for which a child process was started, oldest first. */
  datatype State = State(total: nat, maxParallel: int, iDevice: nat, numInProgress: int, children: seq<nat>)

  /** How many more children fit, of those devices that are left. */
  function Room(s: State): nat {
    var free, left := s.maxParallel - s.numInProgress, s.total - s.iDevice;
    if free <= 0 || left <= 0 then 0 else if free < left then free else left
  }

  function Filled(s: State): State {
    s.(iDevice := s.iDevice + Room(s), numInProgress := s.numInProgress + Room(s),
       children := s.children + Indices(s.iDevice, Room(s)))
  }

  class FindFullDisks {
    const maxParallel: int
    var numInProgress: int
    var devices: seq<Device>
    var iDevice: nat
    var exitCode: int
    var children: seq<nat>

    function Now(): State
      reads this
    {
      State(|devices|, maxParallel, iDevice, numInProgress, children)
    }

    constructor (maxParallel: int)
      ensures Now() == State(0, maxParallel, 0, 0, []) && devices == [] && exitCode == 0
    {
      this.maxParallel := maxParallel;
      numInProgress, devices, iDevice, exitCode, children := 0, [], 0, 0, [];
    }

    /** Takes over one device; the first row that is not good ends the list for good. */
    method OnCsvRow(row: Row)
      modifies this
      ensures devices == old(devices) + if old(exitCode) == 0 && Good(row) then [Device(row[0], row[1])] else []
      ensures exitCode == if old(exitCode) == 0 && !Good(row) then -1 else old(exitCode)
      ensures old(exitCode) == 0 && |row| == 2 && |row[0]| <= 15 && |row[1]| <= 26 ==>
                exitCode == 0 && devices == old(devices) + [Device(row[0], row[1])]
      ensures old(exitCode) == 0 && (|row| != 2 || |row[0]| > 15 || |row[1]| > 26) ==>
                exitCode == -1 && devices == old(devices)
      ensures iDevice == old(iDevice) && numInProgress == old(numInProgress) && children == old(children)
    {
      if exitCode != 0 { return; }
      if |row| != 2 {
        exitCode := -1;
        return;
      }
      if |row[0]| >= EDDIE_NAME_SIZE {
        exitCode := -1;
        return;
      }
      if |row[1]| >= HOSTNAME_SIZE {
        exitCode := -1;
        return;
      }
      devices := devices + [Device(row[0], row[1])];
    }

    /** The parser delivers some rows. `seen` are those delivered before. */
    method OnCsvRows(rows: seq<Row>, ghost seen: seq<Row>)
      requires devices == Listed(seen) && exitCode == (if AllGood(seen) then 0 else -1)
      modifies this
      ensures devices == Listed(seen + rows) && exitCode == if AllGood(seen + rows) then 0 else -1
      ensures iDevice == old(iDevice) && numInProgress == old(numInProgress) && children == old(children)
    {
      assert seen + rows[..0] == seen;
      for k := 0 to |rows|
        invariant devices == Listed(seen + rows[..k]) && exitCode == if AllGood(seen + rows[..k]) then 0 else -1
        invariant iDevice == old(iDevice) && numInProgress == old(numInProgress) && children == old(children)
      {
        OnCsvRow(rows[k]);
        OneRowMore(seen, rows, k);
      }
      assert rows[..|rows|] == rows;
    }

    /**
     * Reads the whole list: `chunks` are the rows that each piece of input completes, `tail` those that its end
     * completes. The first `beginNextDevice` is queued only if no piece held a bad row.
     */
    method ReadList(chunks: seq<seq<Row>>, tail: seq<Row>) returns (begun: bool)
      requires Now() == State(0, maxParallel, 0, 0, []) && exitCode == 0
      modifies this
      ensures begun <==> AllGood(Concat(chunks))
      ensures begun <==> forall chunk, row :: chunk in chunks && row in chunk ==>
                |row| == 2 && |row[0]| <= 15 && |row[1]| <= 26
      ensures begun ==> devices == Listed(Concat(chunks) + tail)
      ensures exitCode == if AllGood(Concat(chunks)) && AllGood(tail) then 0 else -1
      ensures Now() == State(|devices|, maxParallel, 0, 0, [])
    {
      var k := 0;
      while k < |chunks|
        invariant k <= |chunks|
        invariant devices == Listed(Concat(chunks[..k])) && exitCode == 0 && AllGood(Concat(chunks[..k]))
        invariant iDevice == 0 && numInProgress == 0 && children == []
      {
        OnCsvRows(chunks[k], Concat(chunks[..k]));
        assert chunks[..k + 1][..k] == chunks[..k];
        k := k + 1;
        if exitCode != 0 {
          BadStaysBad(chunks, k);
          AllGoodIff(chunks);
          return false;
        }
      }
      assert chunks[..k] == chunks;
      OnCsvRows(tail, Concat(chunks));
      GoodBoth(Concat(chunks), tail);
      AllGoodIff(chunks);
      return true;
    }

    /** Starts children until `maxParallel` are in progress or no device is left. */
    method BeginNextDevice()
      modifies this
      ensures Now() == Filled(old(Now())) && devices == old(devices) && exitCode == old(exitCode)
    {
      ghost var was := Now();
      while numInProgress < maxParallel && iDevice < |devices|
        invariant devices == old(devices) && exitCode == old(exitCode)
        invariant was.iDevice <= iDevice <= was.iDevice + Room(was)
        invariant numInProgress == was.numInProgress + (iDevice - was.iDevice)
        invariant children == was.children + Indices(was.iDevice, iDevice - was.iDevice)
        decreases |devices| - iDevice
      {
        iDevice := iDevice + 1;
        numInProgress := numInProgress + 1;
        children := children + [iDevice - 1];
      }
    }

    /** A child has ended; what follows of it is one more `beginNextDevice` in the event queue. */
    method OnJoined()
      requires numInProgress > 0
      modifies this
      ensures Now() == old(Now()).(numInProgress := old(numInProgress) - 1)
    {
      numInProgress := numInProgress - 1;
    }
  }

  lemma OneRowMore(seen: seq<Row>, rows: seq<Row>, k: nat)
    requires k < |rows|
    ensures Listed(seen + rows[..k + 1]) == Listed(seen + rows[..k])
              + if AllGood(seen + rows[..k]) && Good(rows[k]) then [Device(rows[k][0], rows[k][1])] else []
    ensures AllGood(seen + rows[..k + 1]) <==> AllGood(seen + rows[..k]) && Good(rows[k])
  {
    assert seen + rows[..k + 1] == (seen + rows[..k]) + [rows[k]];
    ListedMore(seen + rows[..k], rows[k]);
    GoodBoth(seen + rows[..k], [rows[k]]);
    assert [rows[k]][0] == rows[k];
  }

  lemma GoodBoth(a: seq<Row>, b: seq<Row>)
    ensures AllGood(a + b) <==> AllGood(a) && AllGood(b)
  {
    if AllGood(a + b) {
      forall k | 0 <= k < |a|
        ensures Good(a[k])
      {
        assert (a + b)[k] == a[k];
      }
      forall k | 0 <= k < |b|
        ensures Good(b[k])
      {
        assert (a + b)[|a| + k] == b[k];
      }
    }
  }

  lemma AllGoodIn(rows: seq<Row>)
    ensures AllGood(rows) <==> forall row :: row in rows ==> |row| == 2 && |row[0]| <= 15 && |row[1]| <= 26
  {
  }

  /** All rows of all pieces are good. */
  lemma {:induction false} AllGoodIff(chunks: seq<seq<Row>>)
    ensures AllGood(Concat(chunks)) <==> forall chunk, row :: chunk in chunks && row in chunk ==>
              |row| == 2 && |row[0]| <= 15 && |row[1]| <= 26
  {
    if chunks != [] {
      var n := |chunks| - 1;
      AllGoodIff(chunks[..n]);
      GoodBoth(Concat(chunks[..n]), chunks[n]);
      AllGoodIn(chunks[n]);
      hide AllGood;
      assert chunks == chunks[..n] + [chunks[n]];
    }
  }

  lemma {:induction false} BadStaysBad(chunks: seq<seq<Row>>, k: nat)
    requires k <= |chunks| && !AllGood(Concat(chunks[..k]))
    ensures !AllGood(Concat(chunks))
    decreases |chunks| - k
  {
    if k == |chunks| {
      assert chunks[..k] == chunks;
    } else {
      assert chunks[..k + 1][..k] == chunks[..k];
      GoodBoth(Concat(chunks[..k]), chunks[k]);
      BadStaysBad(chunks, k + 1);
    }
  }
}
