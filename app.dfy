/**
 * The replay controls of the App component: the keyboard handler, the pause
 * button and the history slider. They act on the read service's cells
 * directly. Rendering and the React effect wiring are not part of this model.
 */
module App {
  import opened Wrappers
  import opened Entities
  import opened ReadService

  /** `Math.max` on integers. */
  function Max(a: int, b: int): int { if a >= b then a else b }

  /** `Math.min` on integers. */
  function Min(a: int, b: int): int { if a <= b then a else b }

  /** The slider's `max`: the last history index, or 0 for an empty history. */
  function SliderMax(historyLength: nat): nat { if historyLength == 0 then 0 else historyLength - 1 }

  /**
   * The slider's displayed `value`: the cursor when it is on a frame,
   * otherwise the last frame. It never falls outside the slider's [0, max]
   * while the cursor is in range.
   */
  function SliderValue(svc: OrderBookReadService): (v: int)
    reads svc
    ensures 0 <= v
    ensures svc.IndexInRange() ==> v <= SliderMax(|svc.history|)
    ensures svc.historyIndex == -1 ==> v == SliderMax(|svc.history|)
  {
    if svc.historyIndex >= 0 then svc.historyIndex else Max(0, |svc.history| - 1)
  }

  /**
   * `handleKeys` as written. Space toggles pause: pausing puts the cursor on
   * the last frame (-1 with an empty history), resuming puts it back to -1.
   * While paused, ArrowLeft moves the cursor to max(0, cursor - 1) and
   * ArrowRight to min(last index, cursor + 1). Any other key changes nothing.
   */
  method HandleKeys(svc: OrderBookReadService, code: string)
    modifies svc
    ensures svc.history == old(svc.history) && svc.liveSnapshot == old(svc.liveSnapshot)
    ensures svc.isConnected == old(svc.isConnected)
    ensures code == "Space" ==>
      svc.isPaused == !old(svc.isPaused) && svc.historyIndex == (if svc.isPaused then |svc.history| - 1 else -1)
    ensures code == "ArrowLeft" ==>
      svc.isPaused == old(svc.isPaused) &&
      svc.historyIndex == (if svc.isPaused then Max(0, old(svc.historyIndex) - 1) else old(svc.historyIndex))
    ensures code == "ArrowRight" ==>
      svc.isPaused == old(svc.isPaused) &&
      svc.historyIndex == (if svc.isPaused then Min(|svc.history| - 1, old(svc.historyIndex) + 1) else old(svc.historyIndex))
    ensures code != "Space" && code != "ArrowLeft" && code != "ArrowRight" ==>
      svc.isPaused == old(svc.isPaused) && svc.historyIndex == old(svc.historyIndex)
    ensures code == "ArrowLeft" && svc.isPaused ==> svc.historyIndex >= 0
    ensures code == "ArrowRight" && svc.isPaused ==> svc.historyIndex <= |svc.history| - 1
    ensures (code != "ArrowLeft" || |svc.history| > 0) ==> old(svc.IndexInRange()) ==> svc.IndexInRange()
  {
    if code == "Space" {
      svc.isPaused := !svc.isPaused;
      if svc.isPaused {
        svc.historyIndex := |svc.history| - 1;
      } else {
        svc.historyIndex := -1;
      }
    }
    if svc.isPaused {
      if code == "ArrowLeft" {
        svc.historyIndex := Max(0, svc.historyIndex - 1);
      }
      if code == "ArrowRight" {
        svc.historyIndex := Min(|svc.history| - 1, svc.historyIndex + 1);
      }
    }
  }

  /**
   * Space then ArrowLeft on a fresh service (empty history) leaves the
   * service paused with cursor 0, which names no frame.
   */
  method ArrowLeftOnEmptyHistory() returns (svc: OrderBookReadService)
    ensures svc.isPaused && svc.history == [] && svc.historyIndex == 0
    ensures !svc.IndexInRange() && svc.ActiveSnapshot() == None
  {
    svc := new OrderBookReadService();
    HandleKeys(svc, "Space");
    assert svc.IndexInRange();
    HandleKeys(svc, "ArrowLeft");
  }

  /**
   * `handleKeys` with the arrow keys acting only when there is a frame to
   * move to: the cursor stays -1 or a valid index whatever key is pressed.
   */
  method HandleKeysInRange(svc: OrderBookReadService, code: string)
    modifies svc
    ensures svc.history == old(svc.history) && svc.liveSnapshot == old(svc.liveSnapshot)
    ensures svc.isConnected == old(svc.isConnected)
    ensures code == "Space" ==>
      svc.isPaused == !old(svc.isPaused) && svc.historyIndex == (if svc.isPaused then |svc.history| - 1 else -1)
    ensures code == "ArrowLeft" ==>
      svc.isPaused == old(svc.isPaused) &&
      svc.historyIndex == (if svc.isPaused && |svc.history| > 0 then Max(0, old(svc.historyIndex) - 1)
                           else old(svc.historyIndex))
    ensures code == "ArrowRight" ==>
      svc.isPaused == old(svc.isPaused) &&
      svc.historyIndex == (if svc.isPaused && |svc.history| > 0 then Min(|svc.history| - 1, old(svc.historyIndex) + 1)
                           else old(svc.historyIndex))
    ensures code != "Space" && code != "ArrowLeft" && code != "ArrowRight" ==>
      svc.isPaused == old(svc.isPaused) && svc.historyIndex == old(svc.historyIndex)
    ensures old(svc.IndexInRange()) ==> svc.IndexInRange()
  {
    if code == "Space" {
      svc.isPaused := !svc.isPaused;
      if svc.isPaused {
        svc.historyIndex := |svc.history| - 1;
      } else {
        svc.historyIndex := -1;
      }
    }
    if svc.isPaused && |svc.history| > 0 {
      if code == "ArrowLeft" {
        svc.historyIndex := Max(0, svc.historyIndex - 1);
      }
      if code == "ArrowRight" {
        svc.historyIndex := Min(|svc.history| - 1, svc.historyIndex + 1);
      }
    }
  }

  /**
   * The pause button: `pause()`, then, being paused, `goToHistory` on the
   * last frame. With an empty history the cursor stays where it was.
   */
  method OnPauseButton(svc: OrderBookReadService)
    modifies svc
    ensures svc.isPaused
    ensures svc.historyIndex == if |svc.history| > 0 then |svc.history| - 1 else old(svc.historyIndex)
    ensures svc.history == old(svc.history) && svc.liveSnapshot == old(svc.liveSnapshot)
    ensures svc.isConnected == old(svc.isConnected)
    ensures old(svc.IndexInRange()) ==> svc.IndexInRange()
  {
    svc.Pause();
    if svc.isPaused {
      svc.GoToHistory(|svc.history| - 1);
    }
  }

  /**
   * The slider's `onChange`: `pause()` then `goToHistory(value)`. The service
   * is paused afterwards in every case; the cursor moves only to a valid
   * index, and then the slider shows that index again.
   */
  method OnSliderChange(svc: OrderBookReadService, value: int)
    modifies svc
    ensures svc.isPaused
    ensures svc.historyIndex == if 0 <= value < |svc.history| then value else old(svc.historyIndex)
    ensures svc.history == old(svc.history) && svc.liveSnapshot == old(svc.liveSnapshot)
    ensures svc.isConnected == old(svc.isConnected)
    ensures old(svc.IndexInRange()) ==> svc.IndexInRange()
    ensures 0 <= value < |svc.history| ==> SliderValue(svc) == value
  {
    svc.Pause();
    svc.GoToHistory(value);
  }
}
