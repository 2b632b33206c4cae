/**
 * components/BatteryIndicator.js (the older revision): a battery badge whose
 * state is a reducer over level codes 1 to 5, fed by a periodic read.
 */
module BatteryIndicator {
  import opened Wrappers
  import opened BlePlx
  import opened Theme

  /** What the badge shows: a percentage, its colour and its icon. */
  datatype BatteryState = BatteryState(value: nat, color: Colour, icon: string)

  /** The icon of each level, from empty to full. */
  function LevelIcon(level: int): string
  {
    match level
    case 1 => "battery-empty"
    case 2 => "battery-quarter"
    case 3 => "battery-half"
    case 4 => "battery-three-quarters"
    case _ => "battery-full"
  }

  /** batteryReducer: `action` is the dispatched level, or null. */
  function BatteryReducer(prevState: Option<BatteryState>, action: Option<int>): (s: Option<BatteryState>)
    ensures action.Some? && 1 <= action.value <= 5 ==>
      s == Some(BatteryState(20 * action.value, Battery(action.value), LevelIcon(action.value)))
    ensures action.None? || !(1 <= action.value <= 5) ==> s == prevState
  {
    if action.None? then prevState
    else match action.value
      case 1 => Some(BatteryState(20, Battery(1), "battery-empty"))
      case 2 => Some(BatteryState(40, Battery(2), "battery-quarter"))
      case 3 => Some(BatteryState(60, Battery(3), "battery-half"))
      case 4 => Some(BatteryState(80, Battery(4), "battery-three-quarters"))
      case 5 => Some(BatteryState(100, Battery(5), "battery-full"))
      case _ => prevState
  }

  /** The badge starts empty: nothing renders until a level arrives. */
  const INITIAL_STATE: Option<BatteryState> := None

  /**
   * readBatteryHandler: whatever value the read resolves with, level 5 is
   * dispatched; a rejected or pending read dispatches nothing.
   */
  function AfterRead(state: Option<BatteryState>, read: Settlement<int>): (next: Option<BatteryState>)
    ensures read.Resolved? ==> next == Some(BatteryState(100, Battery(5), "battery-full"))
    ensures !read.Resolved? ==> next == state
  {
    if read.Resolved? then BatteryReducer(state, Some(5)) else state
  }

  /** The tear-down's `dispatchBattery(null)` falls to the default branch: the state survives it. */
  function AfterTeardown(state: Option<BatteryState>): (next: Option<BatteryState>)
    ensures next == state
  {
    BatteryReducer(state, None)
  }

  /** Once any read has succeeded the badge reads 100%, and stays so through reads and tear-down. */
  lemma {:induction false} BadgeAfterReads(polls: seq<Settlement<int>>, k: nat)
    requires k < |polls| && polls[k].Resolved?
    ensures Replay(INITIAL_STATE, polls) == Some(BatteryState(100, Battery(5), "battery-full"))
    ensures AfterTeardown(Replay(INITIAL_STATE, polls)) == Replay(INITIAL_STATE, polls)
    decreases |polls|
  {
    if k < |polls| - 1 {
      BadgeAfterReads(polls[..|polls| - 1], k);
    } else {
      assert AfterRead(Replay(INITIAL_STATE, polls[..|polls| - 1]), polls[k]) == Replay(INITIAL_STATE, polls);
    }
  }

  /** Nothing shows while no read has succeeded. */
  lemma {:induction false} BadgeBeforeReads(polls: seq<Settlement<int>>)
    requires forall i :: 0 <= i < |polls| ==> !polls[i].Resolved?
    ensures Replay(INITIAL_STATE, polls).None?
    decreases |polls|
  {
    if |polls| > 0 {
      BadgeBeforeReads(polls[..|polls| - 1]);
    }
  }

  /** The state after a run of periodic reads, in order. */
  function Replay(state: Option<BatteryState>, polls: seq<Settlement<int>>): Option<BatteryState>
  {
    if |polls| == 0 then state else AfterRead(Replay(state, polls[..|polls| - 1]), polls[|polls| - 1])
  }
}
