/**
  * Following the modem lines of virtual serial ports, one port and one rig for
  * each section of the configuration: the ports are opened, and their state is
  * first reported, by jobs of the run loop; later changes come in packets.
  */
module FlowControl {
  import opened Bytes
  import RunLoop

  const DTR: bv32 := 0x002
  const RTS: bv32 := 0x004
  const CTS: bv32 := 0x020
  const DSR: bv32 := 0x100

  /** TIOCPKT_MSET, the status bit of a change of the modem lines. */
  const MSET: bv8 := 0x80

  predicate Has(bits: bv32, line: bv32) {
    bits & line != 0
  }

  /** `struct driver_rs232_fc` */
  datatype Lines = Lines(rts: bool, cts: bool, dtr: bool, dsr: bool)

  /** The lines as the bits of `TIOCMGET` have them. */
  function LinesOf(bits: bv32): (r: Lines)
    ensures r.rts == (bits & 0x004 != 0) && r.cts == (bits & 0x020 != 0)
    ensures r.dtr == (bits & 0x002 != 0) && r.dsr == (bits & 0x100 != 0)
  {
    Lines(Has(bits, RTS), Has(bits, CTS), Has(bits, DTR), Has(bits, DSR))
  }

  // ---- Changes in a sequence of readings ----

  function Changed<T(==)>(was: T, now: T): seq<T> {
    if was == now then [] else [now]
  }

  /** Of readings that follow `was`, those that differ from the one before. */
  function Later<T(==)>(was: T, h: seq<T>): seq<T>
    decreases h
  {
    if h == [] then [] else Changed(was, h[0]) + Later(h[0], h[1..])
  }

  /** The first reading, and those that differ from the one before. */
  function Changes<T(==)>(h: seq<T>): seq<T> {
    if h == [] then [] else [h[0]] + Later(h[0], h[1..])
  }

  predicate NeverRepeats<T(==)>(s: seq<T>) {
    forall k | 0 < k < |s| :: s[k - 1] != s[k]
  }

  function Last<T>(h: seq<T>): T
    requires h != []
  {
    h[|h| - 1]
  }

  lemma {:induction false} OneMoreReading<T>(was: T, h: seq<T>, bits: T)
    ensures Later(was, h + [bits]) == Later(was, h) + Changed(Last([was] + h), bits)
    decreases h
  {
    if h == [] {
      assert Later(was, [bits]) == Changed(was, bits) + Later(bits, []);
    } else {
      OneMoreReading(h[0], h[1..], bits);
      assert (h + [bits])[1..] == h[1..] + [bits];
      assert [h[0]] + h[1..] == h;
      calc {
        Later(was, h + [bits]);
        Changed(was, h[0]) + Later(h[0], h[1..] + [bits]);
        Changed(was, h[0]) + (Later(h[0], h[1..]) + Changed(Last(h), bits));
        Later(was, h) + Changed(Last(h), bits);
      }
    }
  }

  /** Reported readings never repeat, and end with the latest reading. */
  lemma {:induction false} ChangesNeverRepeat<T>(was: T, h: seq<T>)
    ensures NeverRepeats([was] + Later(was, h)) && Last([was] + Later(was, h)) == Last([was] + h)
    decreases h
  {
    if h != [] {
      ChangesNeverRepeat(h[0], h[1..]);
      assert [h[0]] + h[1..] == h;
      var rest := [h[0]] + Later(h[0], h[1..]);
      assert [was] + Later(was, h) == if was == h[0] then rest else [was] + rest;
    }
  }

  lemma ChangesAppend<T>(h: seq<T>, bits: T)
    requires h != []
    ensures Changes(h + [bits]) == Changes(h) + Changed(Last(h), bits)
  {
    OneMoreReading(h[0], h[1..], bits);
    assert (h + [bits])[1..] == h[1..] + [bits];
    assert [h[0]] + h[1..] == h;
  }

  // ---- One port, its driver, its module and its rig ----

  class Station {
    /** `modem_bits` */
    var modemBits: bv32
    /** Whether `cb->rs232.fc_changed`, `user` and `rig` are set. */
    var fcChanged: bool
    var user: bool
    var rig: bool
    /** The last PTT command the rig was given. */
    var ptt: Option<bool>
    /** The states of the lines `update_flow_control` was called with. */
    ghost var told: seq<Lines>
    /** The readings of the modem bits; those that reached the module; and the reports nobody was registered for. */
    ghost var readings: seq<bv32>
    ghost var delivered: seq<bv32>
    ghost var missed: nat
    ghost const pos: nat

    constructor (ghost pos: nat)
      ensures Fresh() && this.pos == pos
    {
      this.pos := pos;
      modemBits, fcChanged, user, rig, ptt := 0, false, false, false, None;
      told, readings, delivered, missed := [], [], [], 0;
    }

    /** Not started. */
    ghost predicate Fresh()
      reads this
    {
      !fcChanged && !user && !rig && ptt == None && readings == [] && delivered == [] && missed == 0
    }

    /** Opened by its driver; nothing is registered yet. */
    ghost predicate Opened(bits: bv32)
      reads this
    {
      && !fcChanged && !user && !rig && ptt == None && delivered == [] && missed == 0
      && modemBits == bits && readings == [bits]
    }

    method Open(bits: bv32)
      requires Fresh()
      modifies this
      ensures Opened(bits)
    {
      modemBits := bits;
      readings := [bits];
    }

    /** A report of the modem lines reaches a module that can act on it. */
    ghost predicate Ready()
      reads this
    {
      fcChanged && user && rig && missed == 0 && readings != [] && modemBits == Last(readings)
    }

    /** Started, with its first report still to come. */
    ghost predicate Waiting()
      reads this
    {
      Ready() && |readings| == 1 && delivered == [] && ptt == None
    }

    /** The rig does what the RTS line says, and has been told of every change, and of nothing else. */
    ghost predicate Following()
      reads this
    {
      Ready() && delivered == Changes(readings) && ptt == Some(Has(modemBits, RTS))
    }

    /** `update_flow_control`, which uses `user` and `rig` without looking at them. */
    method UpdateFlowControl(lines: Lines)
      requires user && rig
      modifies this`ptt, this`told
      ensures ptt == Some(lines.rts) && told == old(told) + [lines]
    {
      told := told + [lines];
      var pttState := false;
      if lines.rts {
        pttState := true;
      }
      ptt := Some(pttState);
    }

    /** `vserial_deliver_fc_changed` */
    method DeliverFcChanged()
      requires fcChanged ==> user && rig
      modifies this`ptt, this`told, this`delivered, this`missed
      ensures if fcChanged then
                && ptt == Some(modemBits & 0x004 != 0)
                && told == old(told) + [LinesOf(modemBits)] && delivered == old(delivered) + [modemBits]
                && missed == old(missed)
              else
                && ptt == old(ptt) && told == old(told) && delivered == old(delivered)
                && missed == old(missed) + 1
    {
      var lines := LinesOf(modemBits);
      if fcChanged {
        delivered := delivered + [modemBits];
        UpdateFlowControl(lines);
      } else {
        missed := missed + 1;
      }
    }

    /** `vserial_deliver_fc_changed_cb` */
    method FirstReport()
      requires Waiting()
      modifies this`ptt, this`told, this`delivered, this`missed
      ensures Following()
    {
      DeliverFcChanged();
      assert readings[1..] == [];
    }

    /** `vserial_handle_mset`; `bits` is what `ioctl` reads. */
    method HandleMset(bits: bv32)
      requires Ready()
      modifies this`modemBits, this`ptt, this`told, this`readings, this`delivered, this`missed
      ensures Ready() && readings == old(readings) + [bits]
      ensures delivered == old(delivered) + Changed(old(modemBits), bits)
      ensures ptt == if bits == old(modemBits) then old(ptt) else Some(bits & 0x004 != 0)
      ensures old(Following()) ==> Following()
    {
      readings := readings + [bits];
      ChangesAppend(old(readings), bits);
      if modemBits == bits { return; }
      modemBits := bits;
      DeliverFcChanged();
    }

    /** A run of changes of the modem lines. */
    method HandleAll(bits: seq<bv32>)
      requires Ready()
      modifies this`modemBits, this`ptt, this`told, this`readings, this`delivered, this`missed
      ensures Ready() && readings == old(readings) + bits
      ensures delivered == old(delivered) + Later(old(modemBits), bits)
      ensures old(ptt) == Some(Has(old(modemBits), RTS)) ==> ptt == Some(Has(modemBits, RTS))
    {
      ghost var before, reports, now := readings, delivered, modemBits;
      for k := 0 to |bits|
        invariant Ready() && readings == before + bits[..k] && modemBits == Last([now] + bits[..k])
        invariant delivered == reports + Later(now, bits[..k])
        invariant old(ptt) == Some(Has(now, RTS)) ==> ptt == Some(Has(modemBits, RTS))
      {
        assert bits[..k + 1] == bits[..k] + [bits[k]];
        OneMoreReading(now, bits[..k], bits[k]);
        Assoc(reports, Later(now, bits[..k]), Changed(modemBits, bits[k]));
        Assoc(before, bits[..k], [bits[k]]);
        HandleMset(bits[k]);
      }
      assert bits[..|bits|] == bits;
    }

    /** A port whose lines change before its first report: that report is then made of a state already reported. */
    method HandleEarly(before: seq<bv32>, after: seq<bv32>)
      requires Waiting()
      modifies this
      ensures Ready() && readings == old(readings) + before + after
      ensures ptt == Some(Has(modemBits, RTS))
      ensures delivered == EarlyReports(old(modemBits), before, after)
    {
      HandleAll(before);
      assert readings == [old(modemBits)] + before;
      DeliverFcChanged();
      HandleAll(after);
    }
  }

  /** What the module is told when the lines change before the first report. */
  function EarlyReports(first: bv32, before: seq<bv32>, after: seq<bv32>): seq<bv32> {
    var now := Last([first] + before);
    Later(first, before) + [now] + Later(now, after)
  }

  /** Reports never repeat if and only if no change of the lines came before the first one. */
  lemma EarlyReportsRepeat(first: bv32, before: seq<bv32>, after: seq<bv32>)
    ensures NeverRepeats(EarlyReports(first, before, after)) <==> forall k | 0 <= k < |before| :: before[k] == first
  {
    var now := Last([first] + before);
    ChangesNeverRepeat(first, before);
    ChangesNeverRepeat(now, after);
    LaterIsEmpty(first, before);
    var early := Later(first, before);
    var all := EarlyReports(first, before, after);
    assert all == early + ([now] + Later(now, after));
    if early != [] {
      assert Last([first] + early) == now;
      assert all[|early| - 1] == now == all[|early|];
    }
  }

  lemma {:induction false} LaterIsEmpty<T>(was: T, h: seq<T>)
    ensures Later(was, h) == [] <==> forall k | 0 <= k < |h| :: h[k] == was
    decreases h
  {
    if h != [] {
      LaterIsEmpty(h[0], h[1..]);
      assert forall k | 0 < k < |h| :: h[k] == h[1..][k - 1];
      assert forall k | 0 <= k < |h| - 1 :: h[1..][k] == h[k + 1];
    }
  }

  // ---- The program ----

  /** A section of the configuration: the modem bits its port is opened with, and whether its rig can be opened. */
  datatype Section = Section(bits: bv32, opens: bool)

  /** The jobs of the run loop: `start_module_handler` and `vserial_deliver_fc_changed_cb`. */
  datatype Task = Start(i: nat) | Deliver(i: nat)

  /**
    * The poll event of a port: its flags, the status byte `read` gives if it gives one, and the
    * modem bits `ioctl` then reads.
    */
  datatype Event = Event(i: nat, prio: bool, read: bool, status: Option<bv8>, bits: bv32)

  /** Events at which `util_fatal` ends the program. */
  predicate Fatal(e: Event) {
    if e.prio && !e.read then true
    else e.read && (e.status == None || e.status.value == 0)
  }

  /** The reading of the modem bits an event makes, if it reports that they have changed. */
  function Reading(e: Event): seq<bv32> {
    if e.read && e.status.Some? && e.status.value & MSET != 0 then [e.bits] else []
  }

  /** The readings of the modem bits that events make at port `k`. */
  function ReadingsAt(events: seq<Event>, k: nat): seq<bv32> {
    if events == [] then [] else
      var e := events[|events| - 1];
      ReadingsAt(events[..|events| - 1], k) + if e.i == k then Reading(e) else []
  }

  /** The order of the jobs: all modules start, then all ports report. */
  function Schedule(n: nat): (q: seq<Task>)
    ensures |q| == 2 * n && forall k | 0 <= k < n :: q[k] == Start(k) && q[n + k] == Deliver(k)
  {
    seq(2 * n, k requires 0 <= k < 2 * n => if k < n then Start(k) else Deliver(k - n))
  }

  lemma ReadOneMore(first: seq<bv32>, events: seq<Event>, e: Event, k: nat, readings: seq<bv32>, more: seq<bv32>)
    requires readings == first + ReadingsAt(events, k) && more == if e.i == k then Reading(e) else []
    ensures readings + more == first + ReadingsAt(events + [e], k)
  {
    assert (events + [e])[..|events|] == events;
  }

  /** The pending jobs, once this many have been done. */
  function Pending(n: nat, done: nat): (q: seq<Task>)
    requires done <= 2 * n
    ensures |q| == if done <= n then n else 2 * n - done
  {
    Schedule(n)[done..if done <= n then n + done else 2 * n]
  }

  /** The first pending job, and the jobs pending after it. */
  lemma PendingStep(n: nat, done: nat)
    requires done <= 2 * n && Pending(n, done) != []
    ensures done < 2 * n && Pending(n, done)[0] == (if done < n then Start(done) else Deliver(done - n))
    ensures Pending(n, done + 1) == Pending(n, done)[1..] + if done < n then [Deliver(done)] else []
  {
    assert Schedule(n)[if done < n then done else n + (done - n)] == Pending(n, done)[0];
    assert done < n ==> Schedule(n)[n + done] == Deliver(done);
  }

  class Host {
    const sections: seq<Section>
    const stations: seq<Station>
    /** The queue of the run loop. */
    var queue: seq<Task>
    /** `util_fatal` has ended the program. */
    var exited: bool

    ghost predicate Valid()
      reads this
    {
      |sections| == |stations| && forall k | 0 <= k < |stations| :: stations[k].pos == k
    }

    /** How station `k` is, once this many jobs of the schedule have been done. */
    ghost predicate StationAfter(done: nat, k: nat)
      requires Valid() && k < |stations|
      reads this, stations
    {
      if done <= k then stations[k].Fresh()
      else stations[k].readings == [sections[k].bits]
           && if done <= |stations| + k then stations[k].Waiting() else stations[k].Following()
    }

    /** That many jobs have been done, and the ones they have queued are pending. */
    ghost predicate After(done: nat)
      reads this, stations
    {
      && Valid() && done <= 2 * |stations|
      && queue == Pending(|stations|, done)
      && forall k | 0 <= k < |stations| :: StationAfter(done, k)
    }

    /** `main`, up to the run loop: a job for each section. */
    constructor (sections: seq<Section>)
      ensures After(0) && !exited && this.sections == sections && fresh(stations)
    {
      var ss: seq<Station> := [];
      var q: seq<Task> := [];
      for k := 0 to |sections|
        invariant |ss| == |q| == k && fresh(ss)
        invariant forall j | 0 <= j < k :: ss[j].pos == j && ss[j].Fresh() && q[j] == Start(j)
      {
        var s := new Station(k);
        ss := ss + [s];
        q := q + [Start(k)];
      }
      this.sections, stations := sections, ss;
      queue, exited := q, false;
    }

    /** `vserial_lifecycle_init`: the first report is left to the run loop. */
    method VserialInit(i: nat)
      requires Valid() && i < |stations| && stations[i].Fresh()
      modifies this`queue, stations[i]
      ensures queue == old(queue) + [Deliver(i)]
      ensures stations[i].Opened(sections[i].bits)
    {
      stations[i].Open(sections[i].bits);
      queue := queue + [Deliver(i)];
    }

    /** `test_lifecycle_start`: the driver is created first, the callback, the user and the rig follow. */
    method StartModule(i: nat)
      requires Valid() && i < |stations| && stations[i].Fresh()
      modifies this`queue, this`exited, stations[i]
      ensures queue == old(queue) + [Deliver(i)] && exited == !sections[i].opens
      ensures stations[i].readings == [sections[i].bits]
      ensures stations[i].delivered == [] && stations[i].ptt == None && stations[i].missed == 0
      ensures !exited ==> stations[i].Waiting()
    {
      VserialInit(i);
      stations[i].fcChanged := true;
      stations[i].user := true;
      exited := !sections[i].opens;
      if exited { return; }
      stations[i].rig := true;
    }

    /** The next job of the schedule. */
    method Perform(ghost done: nat)
      requires After(done) && !exited && queue != []
      modifies this`queue, this`exited, stations
      ensures Valid() && (!exited ==> After(done + 1))
      ensures exited <==> done < |stations| && !sections[done].opens
      ensures exited ==> forall k | 0 <= k < |stations| :: Silent(k)
    {
      PendingStep(|stations|, done);
      var task := queue[0];
      match task {
        case Start(i) =>
          assert StationAfter(done, i);
          StartModule(i);
        case Deliver(i) =>
          assert StationAfter(done, i);
          stations[i].FirstReport();
      }
      queue := queue[1..];
      assert queue == old(queue)[1..] + if task.Start? then [Deliver(done)] else [];
      ghost var next := done + 1;
      forall k | 0 <= k < |stations| ensures exited ==> Silent(k) ensures !exited ==> StationAfter(next, k) {
        assert old(StationAfter(done, k));
      }
    }

    /** The rig of station `k` has been told nothing, and no report has been missed. */
    ghost predicate Silent(k: nat)
      requires k < |stations|
      reads this, stations
    {
      stations[k].ptt == None && stations[k].missed == 0 && stations[k].delivered == []
    }

    /** The first turn of the run loop. */
    method Drain()
      requires After(0) && !exited
      modifies this`queue, this`exited, stations
      ensures Valid() && (exited <==> exists k | 0 <= k < |sections| :: !sections[k].opens)
      ensures exited ==> forall k | 0 <= k < |stations| :: Silent(k)
      ensures !exited ==> queue == [] && forall k | 0 <= k < |stations| ::
                              stations[k].Following() && stations[k].readings == [sections[k].bits]
    {
      ghost var done := 0;
      while queue != []
        invariant After(done) && !exited
        invariant forall k | 0 <= k < done && k < |sections| :: sections[k].opens
        decreases 2 * |stations| - done
      {
        Perform(done);
        if exited { return; }
        done := done + 1;
      }
      forall k | 0 <= k < |stations|
        ensures stations[k].Following() && stations[k].readings == [sections[k].bits]
      {
        assert StationAfter(done, k);
      }
    }

    /** `vserial_poll_cb`, `vserial_handle_read` and `vserial_handle_packet`. */
    method Poll(e: Event)
      requires Valid() && !exited && e.i < |stations| && stations[e.i].Following()
      modifies this`exited, stations[e.i]
      ensures exited <==> Fatal(e)
      ensures stations[e.i].Following()
      ensures stations[e.i].readings == old(stations[e.i].readings) + if exited then [] else Reading(e)
      ensures exited <==> (e.prio && !e.read) || (e.read && (e.status == None || e.status == Some(0)))
      ensures stations[e.i].readings == old(stations[e.i].readings) +
                if !exited && e.read && e.status.value & 0x80 != 0 then [e.bits] else []
    {
      if e.prio && !e.read {
        exited := true;
        return;
      }
      if e.read {
        if e.status == None || e.status.value == 0 {
          exited := true;
          return;
        }
        if e.status.value & MSET != 0 {
          stations[e.i].HandleMset(e.bits);
        }
      }
    }

    /** Station `k` follows its port, whose modem bits have been read at first and at these events. */
    ghost predicate Heard(k: nat, first: seq<seq<bv32>>, events: seq<Event>)
      requires k < |stations| && |first| == |stations|
      reads this, stations
    {
      stations[k].Following() && stations[k].readings == first[k] + ReadingsAt(events, k)
    }

    /** One event more; a fatal one changes nothing. */
    method HandleEvent(e: Event, ghost first: seq<seq<bv32>>, ghost before: seq<Event>)
      requires Valid() && !exited && e.i < |stations| == |first|
      requires forall k | 0 <= k < |stations| :: Heard(k, first, before)
      modifies this`exited, stations
      ensures exited <==> Fatal(e)
      ensures exited ==> forall k | 0 <= k < |stations| :: Heard(k, first, before)
      ensures !exited ==> forall k | 0 <= k < |stations| :: Heard(k, first, before + [e])
    {
      assert Heard(e.i, first, before);
      Poll(e);
      forall k | 0 <= k < |stations| ensures if exited then Heard(k, first, before) else Heard(k, first, before + [e]) {
        assert old(Heard(k, first, before));
        assert stations[k].pos == k && stations[e.i].pos == e.i;
        ReadOneMore(first[k], before, e, k, old(stations[k].readings), if e.i == k then Reading(e) else []);
      }
    }

    /** The later turns: the events of the ports, until one is fatal. */
    method HandleEvents(events: seq<Event>, ghost first: seq<seq<bv32>>) returns (handled: nat)
      requires Valid() && !exited && |first| == |stations|
      requires forall k | 0 <= k < |events| :: events[k].i < |stations|
      requires forall k | 0 <= k < |stations| :: Heard(k, first, [])
      modifies this`exited, stations
      ensures handled <= |events| && (exited <==> handled < |events| && Fatal(events[handled]))
      ensures !exited ==> handled == |events|
      ensures forall k | 0 <= k < |stations| :: Heard(k, first, events[..handled])
    {
      handled := 0;
      while handled < |events|
        invariant handled <= |events| && !exited
        invariant forall k | 0 <= k < |stations| :: Heard(k, first, events[..handled])
      {
        HandleEvent(events[handled], first, events[..handled]);
        if exited { return; }
        assert events[..handled + 1] == events[..handled] + [events[handled]];
        handled := handled + 1;
      }
    }
  }

  /**
    * A run of the program: the rig of every port always does what its RTS line says, and is told of
    * every change once.
    */
  method RunProgram(sections: seq<Section>, events: seq<Event>) returns (host: Host, handled: nat)
    requires forall k | 0 <= k < |events| :: events[k].i < |sections|
    ensures host.Valid() && host.sections == sections && handled <= |events|
    ensures host.exited <==>
            (exists k | 0 <= k < |sections| :: !sections[k].opens) || (handled < |events| && Fatal(events[handled]))
    ensures if exists k | 0 <= k < |sections| :: !sections[k].opens then
              handled == 0 && forall k | 0 <= k < |sections| :: host.Silent(k)
            else
              forall k | 0 <= k < |sections| ::
                FollowsIn(host.stations[k], [sections[k].bits] + ReadingsAt(events[..handled], k))
    ensures handled == |events| || host.exited
  {
    host := new Host(sections);
    host.Drain();
    handled := 0;
    if host.exited { return; }
    ghost var first := seq(|sections|, k requires 0 <= k < |sections| => [sections[k].bits]);
    handled := host.HandleEvents(events, first);
    forall k | 0 <= k < |sections|
      ensures FollowsIn(host.stations[k], [sections[k].bits] + ReadingsAt(events[..handled], k))
    {
      assert host.Heard(k, first, events[..handled]);
      ghost var h := host.stations[k].readings;
      ChangesNeverRepeat(h[0], h[1..]);
    }
  }

  ghost predicate FollowsIn(s: Station, readings: seq<bv32>)
    requires readings != []
    reads s
  {
    && s.readings == readings && s.fcChanged && s.user && s.rig && s.missed == 0
    && s.ptt == Some(Last(readings) & 0x004 != 0)
    && s.delivered == Changes(readings) && NeverRepeats(s.delivered)
  }

  // ---- The schedule is the order of the run loop ----

  function StartJob(i: nat): RunLoop.Job<Task> {
    RunLoop.Job(Start(i), [DeliverJob(i)])
  }

  function DeliverJob(i: nat): RunLoop.Job<Task> {
    RunLoop.Job(Deliver(i), [])
  }

  /** The jobs `main` queues: each starts a module, and spawns its first report. */
  function StartJobs(from: nat, n: nat): (q: seq<RunLoop.Job<Task>>)
    ensures |q| == n && forall k | 0 <= k < n :: q[k] == StartJob(from + k)
    decreases n
  {
    if n == 0 then [] else [StartJob(from)] + StartJobs(from + 1, n - 1)
  }

  lemma {:induction false} SpawnedReports(from: nat, n: nat)
    ensures var q := RunLoop.Spawned(StartJobs(from, n));
            |q| == n && (forall k | 0 <= k < n :: q[k] == DeliverJob(from + k)) && RunLoop.Spawned(q) == []
    decreases n
  {
    if n > 0 {
      SpawnedReports(from + 1, n - 1);
      assert StartJobs(from, n)[1..] == StartJobs(from + 1, n - 1);
    }
  }

  /** The run loop runs those jobs in the order of the schedule. */
  lemma ScheduleIsLevelOrder(n: nat)
    ensures var run := RunLoop.LevelOrder(StartJobs(0, n));
            |run| == 2 * n && forall k | 0 <= k < 2 * n :: run[k].what == Schedule(n)[k]
  {
    var q := StartJobs(0, n);
    SpawnedReports(0, n);
    var reports := RunLoop.Spawned(q);
    RunLoop.QueuedInOrder(q, q + reports);
    RunLoop.SpawnedConcat(q, reports);
    assert RunLoop.LevelOrder(q) == q + reports;
    forall k | 0 <= k < 2 * n
      ensures (q + reports)[k].what == Schedule(n)[k]
    {
      assert Schedule(n)[if k < n then k else n + (k - n)] == Schedule(n)[k];
    }
  }
}
