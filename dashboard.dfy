/**
 * The dashboard's control state and its main loop. The state is the four
 * settings the key handler changes (stop, refetch the disk table, human
 * units, refresh interval) and the disk text kept between ticks. Each tick
 * refetches the disk text if asked to, draws the frame (see the other
 * modules), reads one key and applies it; the loop runs until the stop flag
 * is set. The remote fetches and the key reads come in as tick inputs.
 */
module Dashboard {

  /** What one non-blocking key read returns. */
  datatype Key = NoKey | Resize | Press(c: char)

  /** The loop-owned state. The refresh interval is in seconds, as an exact real. */
  datatype State = State(finalize: bool, updateDiskInfo: bool, humanDiskInfo: bool,
                         refresh: real, disk: string)

  /** Amount by which '+' and '-' change the refresh interval, and the interval '-' falls back to. */
  const STEP: real := 0.1

  /**
   * Effect of one key: 'q' stops, 'd' asks for a disk refetch, 'h' flips the
   * unit mode and asks for a refetch, '+' and '-' change the interval (a
   * result of zero or less becomes 0.1); a resize, no key or any other key
   * changes nothing.
   */
  function OnKey(s: State, key: Key): (t: State)
    ensures t.disk == s.disk
    ensures s.finalize ==> t.finalize
    ensures s.refresh > 0.0 ==> t.refresh > 0.0
  {
    if key == Press('q') then s.(finalize := true)
    else if key == Press('d') then s.(updateDiskInfo := true)
    else if key == Press('h') then s.(humanDiskInfo := !s.humanDiskInfo, updateDiskInfo := true)
    else if key == Press('+') then s.(refresh := s.refresh + STEP)
    else if key == Press('-') then
      (if s.refresh - STEP <= 0.0 then s.(refresh := STEP) else s.(refresh := s.refresh - STEP))
    else s
  }

  /** The key table, key by key, and that every other key is ignored. */
  lemma KeyEffects(s: State, key: Key)
    ensures OnKey(s, Press('q')) == s.(finalize := true)
    ensures OnKey(s, Press('d')) == s.(updateDiskInfo := true)
    ensures OnKey(s, Press('h')) == s.(humanDiskInfo := !s.humanDiskInfo, updateDiskInfo := true)
    ensures OnKey(s, Press('+')) == s.(refresh := s.refresh + STEP)
    ensures key !in {Press('q'), Press('d'), Press('h'), Press('+'), Press('-')} ==> OnKey(s, key) == s
  {
  }

  /** '-' lowers the interval by 0.1, except that from 0.1 or less it lands on exactly 0.1. */
  lemma DecrementClamps(s: State)
    ensures OnKey(s, Press('-')) == s.(refresh := if s.refresh <= STEP then STEP else s.refresh - STEP)
  {
  }

  /** The refresh interval counted in tenths of a second: the count never goes below 1. */
  function NextTenths(tenths: nat, key: Key): (n: nat)
    requires tenths >= 1
    ensures n >= 1
  {
    if key == Press('+') then tenths + 1
    else if key == Press('-') then (if tenths <= 1 then 1 else tenths - 1)
    else tenths
  }

  /**
   * An interval that is a whole number of tenths stays one: the real-valued
   * key handler and the count of tenths agree, so the interval is never
   * below 0.1.
   */
  lemma TenthsAgree(s: State, tenths: nat, key: Key)
    requires tenths >= 1 && s.refresh == tenths as real / 10.0
    ensures OnKey(s, key).refresh == NextTenths(tenths, key) as real / 10.0
    ensures OnKey(s, key).refresh >= STEP
  {
  }

  /**
   * From a start that is not a whole number of tenths, '-' can leave the
   * interval below 0.1: from 0.15 it gives 0.05, since the reset applies
   * only to results of zero or less.
   */
  lemma OffTenthsFallsBelowStep()
    ensures OnKey(State(false, false, false, 0.15, ""), Press('-')).refresh == 0.05
  {
  }

  /** Start of a tick: the disk text is refetched, and the request cleared, only when requested. */
  function Refetch(s: State, fetched: string): (t: State)
    ensures !t.updateDiskInfo
    ensures t.disk == if s.updateDiskInfo then fetched else s.disk
    ensures t.(updateDiskInfo := s.updateDiskInfo, disk := s.disk) == s
  {
    if s.updateDiskInfo then s.(disk := fetched, updateDiskInfo := false) else s
  }

  /** What the outside world supplies to one tick: the disk text a fetch would return, and the key read. */
  datatype TickInput = TickInput(disk: string, key: Key)

  /** One tick of the loop, as far as the state is concerned. */
  function TickStep(s: State, input: TickInput): (t: State)
    ensures t.finalize <==> s.finalize || input.key == Press('q')
    ensures t.humanDiskInfo <==> (s.humanDiskInfo != (input.key == Press('h')))
    ensures s.refresh > 0.0 ==> t.refresh > 0.0
  {
    OnKey(Refetch(s, input.disk), input.key)
  }

  /**
   * A tick uses the fetched disk text exactly when a refetch was pending and
   * keeps the previous text otherwise; afterwards a refetch is pending
   * exactly when the tick's key was 'd' or 'h'.
   */
  lemma TickDisk(s: State, input: TickInput)
    ensures TickStep(s, input).disk == if s.updateDiskInfo then input.disk else s.disk
    ensures TickStep(s, input).updateDiskInfo <==> input.key == Press('d') || input.key == Press('h')
  {
  }

  /** The state after the loop has consumed `inputs`, one per tick, stopping once the stop flag is set. */
  function Run(s: State, inputs: seq<TickInput>): (r: State)
    ensures s.refresh > 0.0 ==> r.refresh > 0.0
    decreases |inputs|
  {
    if s.finalize || inputs == [] then s else Run(TickStep(s, inputs[0]), inputs[1..])
  }

  /** How many ticks the loop runs on `inputs`. */
  function Ticks(s: State, inputs: seq<TickInput>): (n: nat)
    ensures n <= |inputs|
    ensures n < |inputs| ==> Run(s, inputs).finalize
    decreases |inputs|
  {
    if s.finalize || inputs == [] then 0 else 1 + Ticks(TickStep(s, inputs[0]), inputs[1..])
  }

  /** Position of the first tick whose key is 'q', or the number of ticks when there is none. */
  function FirstQuit(inputs: seq<TickInput>): (n: nat)
    ensures n <= |inputs|
    ensures forall k :: 0 <= k < n ==> inputs[k].key != Press('q')
    ensures n < |inputs| ==> inputs[n].key == Press('q')
  {
    if inputs == [] || inputs[0].key == Press('q') then 0 else 1 + FirstQuit(inputs[1..])
  }

  /**
   * The loop body runs only while the stop flag is clear: from a running
   * state it runs up to and including the first tick whose key is 'q', and
   * it ends stopped exactly when there was such a tick.
   */
  lemma {:induction false} RunStopsAtQuit(s: State, inputs: seq<TickInput>)
    requires !s.finalize
    ensures Ticks(s, inputs) == if FirstQuit(inputs) < |inputs| then FirstQuit(inputs) + 1 else |inputs|
    ensures Run(s, inputs).finalize <==> FirstQuit(inputs) < |inputs|
    decreases |inputs|
  {
    if inputs != [] {
      var t := TickStep(s, inputs[0]);
      if inputs[0].key == Press('q') {
        assert t.finalize;
      } else {
        assert !t.finalize;
        RunStopsAtQuit(t, inputs[1..]);
      }
    }
  }

  /** A stopped loop runs no tick and changes nothing. */
  lemma StoppedStaysStopped(s: State, inputs: seq<TickInput>)
    requires s.finalize
    ensures Run(s, inputs) == s && Ticks(s, inputs) == 0
  {
  }

  /** The settings and the disk text of the running dashboard, changed in place by its loop. */
  class Controller {
    var finalize: bool
    var updateDiskInfo: bool
    var humanDiskInfo: bool
    var refresh: real
    var disk: string

    function Model(): State
      reads this
    {
      State(finalize, updateDiskInfo, humanDiskInfo, refresh, disk)
    }

    ghost predicate Valid()
      reads this
    {
      refresh > 0.0
    }

    /** The state at the top of the loop: the start-up settings and the disk text fetched at start-up. */
    constructor (finalize0: bool, updateDisk0: bool, human0: bool, refresh0: real, disk0: string)
      requires refresh0 > 0.0
      ensures Valid()
      ensures Model() == State(finalize0, updateDisk0, human0, refresh0, disk0)
    {
      finalize := finalize0;
      updateDiskInfo := updateDisk0;
      humanDiskInfo := human0;
      refresh := refresh0;
      disk := disk0;
    }

    /** Applies the key read at the end of a tick. */
    method HandleKey(key: Key)
      requires Valid()
      modifies this
      ensures Valid()
      ensures Model() == OnKey(old(Model()), key)
    {
      if key == Resize {
        // the screen is cleared and redrawn; no setting changes
      } else if key == Press('q') {
        finalize := true;
      } else if key == Press('d') {
        updateDiskInfo := true;
      } else if key == Press('h') {
        humanDiskInfo := !humanDiskInfo;
        updateDiskInfo := true;
      } else if key == Press('+') {
        refresh := refresh + STEP;
      } else if key == Press('-') {
        refresh := refresh - STEP;
        if refresh <= 0.0 {
          refresh := STEP;
        }
      }
    }

    /** Refetches the disk text when asked to, and clears the request. */
    method RefreshDisk(fetched: string)
      modifies this
      ensures Model() == Refetch(old(Model()), fetched)
    {
      if updateDiskInfo {
        disk := fetched;
        updateDiskInfo := false;
      }
    }

    /** One pass of the loop body on a running dashboard. */
    method Tick(input: TickInput)
      requires Valid() && !finalize
      modifies this
      ensures Valid()
      ensures Model() == TickStep(old(Model()), input)
    {
      RefreshDisk(input.disk);
      HandleKey(input.key);
    }

    /**
     * The loop: while the stop flag is clear and inputs remain, run a tick on
     * the next input. Returns the number of ticks run.
     */
    method Loop(inputs: seq<TickInput>) returns (ticks: nat)
      requires Valid()
      modifies this
      ensures Valid()
      ensures Model() == Run(old(Model()), inputs)
      ensures ticks == Ticks(old(Model()), inputs)
    {
      ticks := 0;
      while !finalize && ticks < |inputs|
        invariant Valid() && ticks <= |inputs|
        invariant Run(Model(), inputs[ticks..]) == Run(old(Model()), inputs)
        invariant ticks + Ticks(Model(), inputs[ticks..]) == Ticks(old(Model()), inputs)
        decreases |inputs| - ticks
      {
        assert inputs[ticks..][1..] == inputs[ticks + 1..];
        Tick(inputs[ticks]);
        ticks := ticks + 1;
      }
    }
  }
}
