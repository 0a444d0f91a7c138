/**
 * The panel manager: a registry of the system messages the panel has
 * shown, each with the time it was last seen and expiring after a fixed
 * number of seconds, and the time of the last display update, from which
 * liveness is judged. Display text is normalised and forwarded to the
 * display record of the web UI.
 *
 * Every reading of the clock is a `now` parameter, in whole seconds.
 */
module Panelmanager {
  import opened Wrappers
  import opened Strings
  import Controls

  /** The characters `str.strip(' \x00')` removes. */
  predicate IsPadding(c: char) {
    c == ' ' || c == '\0'
  }

  /** How a system message is keyed: spaces and NULs stripped from both ends, nothing else. */
  function StripMessage(message: string): (r: string)
    ensures exists i, j ::
      && 0 <= i <= j <= |message| && r == message[i..j]
      && AllSatisfy(message[..i], IsPadding) && AllSatisfy(message[j..], IsPadding)
    ensures r == [] || (!IsPadding(r[0]) && !IsPadding(r[|r| - 1]))
  {
    TrimIsSlice(message, IsPadding);
    Trim(message, IsPadding)
  }

  /** A message without padding at its ends, tabs and newlines included, is kept as it is. */
  lemma StripMessageKeeps(message: string)
    requires message == [] || (!IsPadding(message[0]) && !IsPadding(message[|message| - 1]))
    ensures StripMessage(message) == message
  {
    var r := StripMessage(message);
    var i, j :| 0 <= i <= j <= |message| && r == message[i..j]
      && AllSatisfy(message[..i], IsPadding) && AllSatisfy(message[j..], IsPadding);
  }

  /**
   * The registry after seeing `message` at `now`: the message is stored
   * with time `now`, and then only entries seen after `now - expS` stay.
   */
  function Observe(registry: map<string, int>, message: string, now: int, expS: int): (r: map<string, int>)
    ensures forall k :: k in r <==>
      (if k == message then expS > 0 else k in registry && registry[k] > now - expS)
    ensures forall k :: k in r ==> r[k] == (if k == message then now else registry[k])
    ensures forall k :: k in r ==> r[k] > now - expS
  {
    var upserted := registry[message := now];
    map k | k in upserted && upserted[k] > now - expS :: upserted[k]
  }

  /** Observing a message never lets anything older than the expiry bound survive, and keeps everything younger. */
  lemma ObserveExpires(registry: map<string, int>, message: string, now: int, expS: int, k: string)
    requires k in registry && k != message
    ensures k in Observe(registry, message, now, expS) <==> registry[k] > now - expS
  {
  }

  /** Seeing a message again refreshes its time instead of adding a second entry. */
  lemma ObserveRefreshes(registry: map<string, int>, message: string, now: int, expS: int)
    requires message in registry && expS > 0
    ensures Observe(registry, message, now, expS).Keys <= registry.Keys
    ensures Observe(registry, message, now, expS)[message] == now
  {
  }

  class PanelManager {
    const timeout: int
    const expS: int
    var lastTextUpdate: int
    /** Message text to the time it was last seen. */
    var registry: map<string, int>
    var lcdLine0: string
    var lcdLine1: string
    /** The web UI's display record that display text is forwarded to. */
    const display: Controls.DisplayState

    constructor(connectTimeout: int, messageExpSeconds: int, now: int, display: Controls.DisplayState)
      ensures lastTextUpdate == now && timeout == connectTimeout && expS == messageExpSeconds
      ensures registry == map[] && lcdLine0 == "" && lcdLine1 == ""
      ensures this.display == display
    {
      lastTextUpdate := now;
      timeout := connectTimeout;
      expS := messageExpSeconds;
      registry := map[];
      lcdLine0 := "";
      lcdLine1 := "";
      this.display := display;
    }

    /** `observe_system_message`: `None` is ignored; liveness is not refreshed. */
    method ObserveSystemMessage(message: Option<string>, now: int)
      modifies this
      ensures message.None? ==> registry == old(registry)
      ensures message.Some? ==> registry == Observe(old(registry), StripMessage(message.value), now, expS)
      ensures lastTextUpdate == old(lastTextUpdate) && lcdLine0 == old(lcdLine0) && lcdLine1 == old(lcdLine1)
    {
      if message.None? {
        return;
      }
      var m := Trim(message.value, IsPadding);
      registry := registry[m := now];
      var exp := now - expS;
      registry := map k | k in registry && registry[k] > exp :: registry[k];
    }

    /** The active messages, in sorted order. */
    function SystemMessages(): (r: seq<string>)
      reads this
      ensures StrictlyIncreasing(r)
      ensures forall m :: m in r <==> m in registry
    {
      Sorted(registry.Keys)
    }

    /** `get_system_messages`. */
    method GetSystemMessages() returns (r: seq<string>)
      ensures r == SystemMessages()
    {
      r := Sorted(registry.Keys);
    }

    /** `get_last_update_age`. */
    function LastUpdateAge(now: int): (r: int)
      reads this
      ensures r == 0 <==> now == lastTextUpdate
      ensures r >= 0 <==> now >= lastTextUpdate
    {
      now - lastTextUpdate
    }

    /** `is_updating`: the display was updated less than `timeout` seconds ago. */
    function IsUpdating(now: int): (r: bool)
      reads this
      ensures r <==> LastUpdateAge(now) < timeout
    {
      now - lastTextUpdate < timeout
    }

    /**
     * `text_updated`: liveness is refreshed first; the text, NULs removed and
     * whitespace stripped, becomes line 0 and is forwarded as the only line
     * of the display, leaving blink positions and LEDs alone.
     */
    method TextUpdated(text: Option<string>, now: int)
      modifies this, display
      ensures lastTextUpdate == now
      ensures lcdLine0 == DisplayLine(text)
      ensures display.lines == [lcdLine0, "", "", ""]
      ensures display.blink == old(display.blink) && display.leds == old(display.leds)
      ensures display.updatedAt == now
      ensures registry == old(registry) && lcdLine1 == old(lcdLine1)
    {
      lastTextUpdate := now;
      var raw := if text.Some? then text.value else "";
      lcdLine0 := Trim(RemoveChar(raw, '\0'), IsSpace);
      var lines := [lcdLine0, "", "", ""];
      Controls.NormalizeLinesKeepsGiven(lines);
      assert lines[..4] == lines;
      display.UpdateDisplay(lines, None, None, now);
    }
  }

  /** `(str or "").replace("\x00", "")`: the text before stripping. */
  function RawLine(text: Option<string>): string {
    RemoveChar(if text.Some? then text.value else "", '\0')
  }

  /** `(str or "").replace("\x00", "").strip()`. */
  function DisplayLine(text: Option<string>): (r: string)
    ensures var s := RawLine(text);
      exists i, j ::
        && 0 <= i <= j <= |s| && r == s[i..j]
        && AllSatisfy(s[..i], IsSpace) && AllSatisfy(s[j..], IsSpace)
    ensures '\0' !in r
    ensures r == [] || (!IsSpace(r[0]) && !IsSpace(r[|r| - 1]))
  {
    var s := RawLine(text);
    TrimIsSlice(s, IsSpace);
    TrimKeepsOut(s, IsSpace, '\0');
    Trim(s, IsSpace)
  }

  /** Right after a display update the panel counts as live exactly when the timeout is positive. */
  lemma LiveAfterUpdate(pm: PanelManager, now: int)
    requires pm.lastTextUpdate == now
    ensures pm.LastUpdateAge(now) == 0
    ensures pm.IsUpdating(now) <==> pm.timeout > 0
  {
  }

  /** Liveness only decays: once the age reaches the timeout, every later instant is not live. */
  lemma NotUpdatingLater(pm: PanelManager, now: int, later: int)
    requires now <= later && !pm.IsUpdating(now)
    ensures !pm.IsUpdating(later) && pm.LastUpdateAge(later) >= pm.LastUpdateAge(now)
  {
  }
}
