/**
 * The web-UI control adapter: a FIFO of low-level key names fed by
 * case-insensitive button names, a drain loop that hands them to a
 * replaceable sender, and the display record the UI reads.
 *
 * The module-level queue and sender become the fields of a `Keypad`
 * object and the module-level `_state` a `DisplayState` object.
 * A sender is known by an opaque identity; what it answers on each call
 * is given to the drain as a sequence of outcomes, an exception counting
 * as `false`.
 */
module Controls {
  import opened Wrappers
  import opened Strings
  import opened Dicts

  // ---------------------------------------------------------------------
  // Button names
  // ---------------------------------------------------------------------

  /** Exported button names and the low-level key each one stands for. */
  const KeyMap: Dict<string> :=
    [("plus", "PLUS"), ("minus", "MINUS"), ("left", "LEFT"), ("right", "RIGHT"), ("menu", "MENU")]

  const ButtonNames: seq<string> := ["plus", "minus", "left", "right", "menu"]

  /**
   * `KEYMAP[key.lower()]`, `None` standing for the `KeyError`: a name is
   * known exactly when its lower case is a button name, and then its key
   * is that name in upper case.
   */
  function KeyFor(key: string): (r: Option<string>)
    ensures r.Some? <==> AsciiLower(key) in ButtonNames
    ensures r.Some? ==> r == Some(AsciiUpper(AsciiLower(key)))
  {
    var l := AsciiLower(key);
    KeyMapKeys();
    if l in ButtonNames then
      var i :| 0 <= i < |ButtonNames| && ButtonNames[i] == l;
      KeyMapGet(i);
      KeyMapUpper(i);
      Get(KeyMap, l)
    else
      Get(KeyMap, l)
  }

  lemma KeyMapKeys()
    ensures Keys(KeyMap) == ButtonNames
  {
  }

  lemma KeyMapGet(i: nat)
    requires i < |KeyMap|
    ensures Get(KeyMap, KeyMap[i].0) == Some(KeyMap[i].1)
  {
    GetLiteral(KeyMap, i);
  }

  /** Each key is its button name in upper case. */
  lemma KeyMapUpper(i: nat)
    requires i < |KeyMap|
    ensures KeyMap[i].1 == AsciiUpper(KeyMap[i].0) && KeyMap[i].0 == ButtonNames[i]
  {
    if i == 0 {
      assert AsciiUpper("plus") == "PLUS";
    } else if i == 1 {
      assert AsciiUpper("minus") == "MINUS";
    } else if i == 2 {
      assert AsciiUpper("left") == "LEFT";
    } else if i == 3 {
      assert AsciiUpper("right") == "RIGHT";
    } else {
      assert AsciiUpper("menu") == "MENU";
    }
  }

  lemma LowerOfUpper(s: string)
    ensures AsciiLower(AsciiUpper(s)) == AsciiLower(s)
  {
  }

  /** The lookup ignores ASCII case: a name and its upper-case spelling find the same key. */
  lemma KeyForIgnoresCase(key: string)
    ensures KeyFor(AsciiUpper(key)) == KeyFor(key)
  {
    LowerOfUpper(key);
  }

  // ---------------------------------------------------------------------
  // The keypress queue
  // ---------------------------------------------------------------------

  /** The identity of a registered sender callable. */
  type SenderId = nat

  datatype KeyError = KeyError(key: string)

  /** How many of `outcomes` are `true`. */
  function Successes(outcomes: seq<bool>): nat {
    if outcomes == [] then 0 else (if outcomes[0] then 1 else 0) + Successes(outcomes[1..])
  }

  /** What one drain does: how many keys it dequeues and how many sends it counts. */
  datatype DrainOutcome = DrainOutcome(taken: nat, sent: nat)

  /**
   * The drain loop over queue `q`, the sender answering `outcomes[i]` to
   * its `i`-th call, with `budget` sends still wanted.
   */
  function Drain(q: seq<string>, outcomes: seq<bool>, budget: int): (r: DrainOutcome)
    requires |outcomes| >= |q|
    ensures r.taken <= |q|
    decreases |q|
  {
    if budget <= 0 || q == [] then DrainOutcome(0, 0)
    else
      var rest := Drain(q[1..], outcomes[1..], if outcomes[0] then budget - 1 else budget);
      DrainOutcome(rest.taken + 1, rest.sent + if outcomes[0] then 1 else 0)
  }

  /**
   * The drain dequeues a prefix of the queue and counts the successful sends
   * in it; it does nothing without a positive budget, never counts more than
   * the budget, and stops before the end of the queue only on reaching it;
   * every key it dequeues is taken while the count is still below the budget.
   */
  lemma {:induction false} DrainSpec(q: seq<string>, outcomes: seq<bool>, budget: int)
    requires |outcomes| >= |q|
    ensures var r := Drain(q, outcomes, budget);
      && r.sent == Successes(outcomes[..r.taken])
      && (budget <= 0 ==> r == DrainOutcome(0, 0))
      && (budget > 0 ==> r.sent <= budget)
      && (budget > 0 && r.taken < |q| ==> r.sent == budget)
      && (forall t :: 0 <= t < r.taken ==> Successes(outcomes[..t]) < budget)
    decreases |q|
  {
    if budget > 0 && q != [] {
      var b := if outcomes[0] then budget - 1 else budget;
      DrainSpec(q[1..], outcomes[1..], b);
      var rest := Drain(q[1..], outcomes[1..], b);
      SuccessesCons(outcomes, rest.taken);
      forall t | 0 <= t < rest.taken + 1
        ensures Successes(outcomes[..t]) < budget
      {
        if t > 0 {
          SuccessesCons(outcomes, t - 1);
        }
      }
    }
  }

  /** Counting the first `t + 1` outcomes is counting the first, then the next `t`. */
  lemma SuccessesCons(outcomes: seq<bool>, t: nat)
    requires t < |outcomes|
    ensures Successes(outcomes[..t + 1]) == (if outcomes[0] then 1 else 0) + Successes(outcomes[1..][..t])
  {
    assert outcomes[..t + 1][1..] == outcomes[1..][..t];
  }

  /** Failed sends do not use up the budget: one key too many is dequeued when the first send fails. */
  lemma DrainMayTakeMoreThanBudget()
    ensures Drain(["PLUS", "MINUS"], [false, true], 1) == DrainOutcome(2, 1)
  {
    assert Drain(["MINUS"], [true], 1) == DrainOutcome(1, 1);
  }

  /** Every key that is dequeued is a send, successful or not; a drain that sends nothing successfully returns 0. */
  lemma DrainAllFailing(q: seq<string>, outcomes: seq<bool>, budget: int)
    requires |outcomes| >= |q| && forall i :: 0 <= i < |outcomes| ==> !outcomes[i]
    ensures Drain(q, outcomes, budget) == DrainOutcome(if budget <= 0 then 0 else |q|, 0)
  {
    DrainSpec(q, outcomes, budget);
    NoSuccesses(outcomes[..Drain(q, outcomes, budget).taken]);
  }

  lemma {:induction false} NoSuccesses(outcomes: seq<bool>)
    requires forall i :: 0 <= i < |outcomes| ==> !outcomes[i]
    ensures Successes(outcomes) == 0
  {
    if outcomes != [] {
      NoSuccesses(outcomes[1..]);
    }
  }

  class Keypad {
    /** Low-level key names waiting to be sent, front first. */
    var queue: seq<string>
    var sender: Option<SenderId>
    /** Every key handed to a sender so far, in order. */
    var delivered: seq<string>

    constructor()
      ensures queue == [] && sender == None && delivered == []
    {
      queue := [];
      sender := None;
      delivered := [];
    }

    /** `set_key_sender`: replaces the current sender. */
    method SetKeySender(s: SenderId)
      modifies this
      ensures sender == Some(s)
      ensures queue == old(queue) && delivered == old(delivered)
    {
      sender := Some(s);
    }

    /** `press`: appends the key for `key` to the back, or fails with `KeyError` and leaves the queue alone. */
    method Press(key: string) returns (r: Result<(), KeyError>)
      modifies this
      ensures KeyFor(key).Some? ==> r == Ok(()) && queue == old(queue) + [KeyFor(key).value]
      ensures KeyFor(key).None? ==> r == Err(KeyError(AsciiLower(key))) && queue == old(queue)
      ensures sender == old(sender) && delivered == old(delivered)
    {
      var low := Get(KeyMap, AsciiLower(key));
      if low.None? {
        return Err(KeyError(AsciiLower(key)));
      }
      queue := queue + [low.value];
      r := Ok(());
    }

    /**
     * `drain_keypresses`: with a sender registered, dequeues from the front
     * and hands each key to the sender until `maxToSend` sends succeeded or
     * the queue is empty; a failed key is dropped, not requeued.
     */
    method DrainKeypresses(maxToSend: int, outcomes: seq<bool>) returns (sent: int)
      requires |outcomes| >= |queue|
      modifies this
      ensures sender.None? ==> sent == 0 && queue == old(queue) && delivered == old(delivered)
      ensures sender.Some? ==>
        var d := Drain(old(queue), outcomes, maxToSend);
        && sent == d.sent
        && queue == old(queue)[d.taken..]
        && delivered == old(delivered) + old(queue)[..d.taken]
      ensures sender == old(sender)
    {
      sent := 0;
      if sender.None? {
        return;
      }
      ghost var q0 := queue;
      var i := 0;
      // The source's `queue.Empty` exit is the second half of the guard.
      while sent < maxToSend && queue != []
        invariant 0 <= i <= |q0| && queue == q0[i..] && 0 <= sent
        invariant delivered == old(delivered) + q0[..i]
        invariant Drain(q0, outcomes, maxToSend) == After(i, sent, Drain(q0[i..], outcomes[i..], maxToSend - sent))
        invariant sender == old(sender)
        decreases |queue|
      {
        var low := queue[0];
        var ok := outcomes[i];
        var next := sent + if ok then 1 else 0;
        DrainAdvance(q0, outcomes, maxToSend, i, sent, next);
        SliceStep(q0, i);
        queue := queue[1..];
        delivered := delivered + [low];
        i := i + 1;
        sent := next;
      }
      DrainDone(q0[i..], outcomes[i..], maxToSend - sent);
    }
  }

  /** A drain's outcome after `i` earlier calls of which `sent` succeeded. */
  function After(i: nat, sent: nat, rest: DrainOutcome): DrainOutcome {
    DrainOutcome(i + rest.taken, sent + rest.sent)
  }

  /** One more send of the loop, as the drain's outcome sees it. */
  lemma DrainAdvance(q: seq<string>, outcomes: seq<bool>, max: int, i: nat, sent: nat, next: nat)
    requires |outcomes| >= |q| && i < |q| && sent < max
    requires next == sent + if outcomes[i] then 1 else 0
    requires Drain(q, outcomes, max) == After(i, sent, Drain(q[i..], outcomes[i..], max - sent))
    ensures Drain(q, outcomes, max) == After(i + 1, next, Drain(q[i + 1..], outcomes[i + 1..], max - next))
  {
    SliceTail(q, i);
    SliceTail(outcomes, i);
    DrainStepTo(q[i..], outcomes[i..], max - sent, q[i + 1..], outcomes[i + 1..], max - next);
  }

  lemma SliceTail<T>(s: seq<T>, i: nat)
    requires i < |s|
    ensures s[i..][0] == s[i] && s[i..][1..] == s[i + 1..]
  {
  }

  /** `DrainStep` with the rest of the queue, the outcomes and the budget named. */
  lemma DrainStepTo(q: seq<string>, outcomes: seq<bool>, budget: int, q': seq<string>, outcomes': seq<bool>, budget': int)
    requires |outcomes| >= |q| && budget > 0 && q != []
    requires q' == q[1..] && outcomes' == outcomes[1..]
    requires budget' == if outcomes[0] then budget - 1 else budget
    ensures Drain(q, outcomes, budget) == After(1, if outcomes[0] then 1 else 0, Drain(q', outcomes', budget'))
  {
    DrainStep(q, outcomes, budget);
  }

  lemma SliceStep(q: seq<string>, i: nat)
    requires i < |q|
    ensures q[i..][0] == q[i] && q[i..][1..] == q[i + 1..] && q[..i + 1] == q[..i] + [q[i]]
  {
  }

  lemma DrainStep(q: seq<string>, outcomes: seq<bool>, budget: int)
    requires |outcomes| >= |q| && budget > 0 && q != []
    ensures Drain(q, outcomes, budget) ==
      After(1, if outcomes[0] then 1 else 0, Drain(q[1..], outcomes[1..], if outcomes[0] then budget - 1 else budget))
  {
  }

  lemma DrainDone(q: seq<string>, outcomes: seq<bool>, budget: int)
    requires |outcomes| >= |q| && (budget <= 0 || q == [])
    ensures Drain(q, outcomes, budget) == DrainOutcome(0, 0)
  {
  }

  // ---------------------------------------------------------------------
  // The display record
  // ---------------------------------------------------------------------

  /** `lines[:4]` padded with empty lines to exactly four. */
  function NormalizeLines(lines: seq<string>): (r: seq<string>)
    ensures |r| == 4
    ensures forall i :: 0 <= i < 4 ==> r[i] == if i < |lines| then lines[i] else ""
  {
    var n := if |lines| < 4 then |lines| else 4;
    lines[..n] + seq(4 - n, _ => "")
  }

  /** What `get_display` returns (`to_dict`). */
  datatype Display = Display(lines: seq<string>, blink: seq<(int, int)>, leds: Dict<bool>, updatedAt: int)

  class DisplayState {
    var lines: seq<string>
    var blink: seq<(int, int)>
    var leds: Dict<bool>
    var updatedAt: int

    /** Four empty lines, no blink positions, no LEDs, stamped `now`. */
    constructor(now: int)
      ensures lines == ["", "", "", ""] && blink == [] && leds == [] && updatedAt == now
    {
      lines := ["", "", "", ""];
      blink := [];
      leds := [];
      updatedAt := now;
    }

    /** `update_display`: the lines are always replaced, blink positions and LEDs only when given. */
    method UpdateDisplay(newLines: seq<string>, newBlink: Option<seq<(int, int)>>, newLeds: Option<Dict<bool>>, now: int)
      modifies this
      ensures lines == NormalizeLines(newLines)
      ensures blink == if newBlink.Some? then newBlink.value else old(blink)
      ensures leds == if newLeds.Some? then newLeds.value else old(leds)
      ensures updatedAt == now
    {
      var n := if |newLines| < 4 then |newLines| else 4;
      lines := newLines[..n] + seq(4 - n, _ => "");
      if newBlink.Some? {
        blink := newBlink.value;
      }
      if newLeds.Some? {
        leds := newLeds.value;
      }
      updatedAt := now;
    }

    /** `get_display`: the current record, state unchanged. */
    method GetDisplay() returns (r: Display)
      ensures r == Display(lines, blink, leds, updatedAt)
    {
      r := Display(lines, blink, leds, updatedAt);
    }
  }

  /** However many lines are given, the display keeps exactly four, the given ones first. */
  lemma NormalizeLinesKeepsGiven(lines: seq<string>)
    ensures |lines| <= 4 ==> NormalizeLines(lines) == lines + seq(4 - |lines|, _ => "")
    ensures |lines| >= 4 ==> NormalizeLines(lines) == lines[..4]
  {
    var r := NormalizeLines(lines);
    if |lines| <= 4 {
      assert r == lines + seq(4 - |lines|, _ => "") by {
        forall i | 0 <= i < 4 ensures r[i] == (lines + seq(4 - |lines|, _ => ""))[i] {}
      }
    }
  }
}
