/**
 * The replay-state controller of useOrderBookReadService: the state cells,
 * the `activeSnapshot` computed value and the actions. The cells are plain
 * fields here; the reactive signal wiring is not part of this model.
 */
module ReadService {
  import opened Wrappers
  import opened Entities

  /**
   * The history capacity that the service declares. Nothing reads it, because
   * nothing in the service appends to the history.
   */
  const MaxHistory: nat := 1000

  /**
   * `activeSnapshot`: while paused on a cursor `index >= 0`, the snapshot of
   * that history frame (None when there is no such frame); otherwise the live
   * snapshot.
   */
  function Active(live: Option<OrderBookSnapshot>, history: seq<HistoryFrame>, paused: bool, index: int)
    : Option<OrderBookSnapshot>
  {
    if paused && index >= 0 then
      if index < |history| then Some(history[index].snapshot) else None
    else live
  }

  /**
   * While replaying a frame, the active snapshot is pinned to that frame:
   * a new live snapshot and further frames appended to the history do not
   * move it.
   */
  lemma ActivePinnedWhilePaused(live: Option<OrderBookSnapshot>, live': Option<OrderBookSnapshot>,
                                history: seq<HistoryFrame>, appended: seq<HistoryFrame>, index: int)
    requires 0 <= index < |history|
    ensures Active(live, history, true, index) == Some(history[index].snapshot)
    ensures Active(live', history + appended, true, index) == Active(live, history, true, index)
  {
  }

  class OrderBookReadService {
    var liveSnapshot: Option<OrderBookSnapshot>
    var history: seq<HistoryFrame>
    var isPaused: bool
    var historyIndex: int
    var isConnected: bool

    /** The replay cursor is the live sentinel -1 or a valid index into the history. */
    predicate IndexInRange()
      reads this
    {
      historyIndex == -1 || 0 <= historyIndex < |history|
    }

    function ActiveSnapshot(): Option<OrderBookSnapshot>
      reads this
    {
      Active(liveSnapshot, history, isPaused, historyIndex)
    }

    /** The initial cells: no live snapshot, empty history, live, cursor -1, not connected. */
    constructor ()
      ensures liveSnapshot == None && history == [] && !isPaused && historyIndex == -1 && !isConnected
      ensures IndexInRange() && ActiveSnapshot() == None
    {
      liveSnapshot := None;
      history := [];
      isPaused := false;
      historyIndex := -1;
      isConnected := false;
    }

    /** `disconnect`: the socket closes (not modelled) and only `isConnected` changes. */
    method Disconnect()
      modifies this
      ensures !isConnected
      ensures liveSnapshot == old(liveSnapshot) && history == old(history)
      ensures isPaused == old(isPaused) && historyIndex == old(historyIndex)
    {
      isConnected := false;
    }

    /** `pause`: sets `isPaused` and nothing else; the cursor stays where it was. */
    method Pause()
      modifies this
      ensures isPaused
      ensures liveSnapshot == old(liveSnapshot) && history == old(history)
      ensures historyIndex == old(historyIndex) && isConnected == old(isConnected)
      ensures old(IndexInRange()) ==> IndexInRange()
    {
      isPaused := true;
    }

    /** `resume`: back to live with the cursor at -1; the live snapshot is active again. */
    method Resume()
      modifies this
      ensures !isPaused && historyIndex == -1
      ensures liveSnapshot == old(liveSnapshot) && history == old(history) && isConnected == old(isConnected)
      ensures IndexInRange() && ActiveSnapshot() == liveSnapshot
    {
      isPaused := false;
      historyIndex := -1;
    }

    /**
     * `goToHistory(index)`: an index of an existing frame pauses on it; any
     * other index changes nothing at all (it is not clamped).
     */
    method GoToHistory(index: int)
      modifies this
      ensures 0 <= index < |old(history)| ==> historyIndex == index && isPaused
      ensures !(0 <= index < |old(history)|) ==> historyIndex == old(historyIndex) && isPaused == old(isPaused)
      ensures liveSnapshot == old(liveSnapshot) && history == old(history) && isConnected == old(isConnected)
      ensures old(IndexInRange()) ==> IndexInRange()
      ensures 0 <= index < |history| ==> ActiveSnapshot() == Some(history[index].snapshot)
    {
      if index >= 0 && index < |history| {
        historyIndex := index;
        isPaused := true;
      }
    }

    /** `reset`: no live snapshot, empty history, live, cursor -1; the connection flag is kept. */
    method Reset()
      modifies this
      ensures liveSnapshot == None && history == [] && !isPaused && historyIndex == -1
      ensures isConnected == old(isConnected)
      ensures IndexInRange() && ActiveSnapshot() == None
    {
      liveSnapshot := None;
      history := [];
      isPaused := false;
      historyIndex := -1;
    }
  }
}
