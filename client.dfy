/**
 * The bridge client's own bookkeeping (aqualogic_mqtt/client.py): the
 * reconnect backoff counters driven by the connect and disconnect
 * callbacks, the splitting of `host:port` addresses, and the order of
 * work when the panel reports a change. Publishing and subscribing are
 * recorded in logs; the MQTT transport itself is not modelled.
 */
module Client {
  import opened Wrappers
  import opened Strings
  import opened Json
  import opened Aqualogic
  import Messages
  import Panelmanager

  // ---------------------------------------------------------------------
  // Python's int() on a string, base 10
  // ---------------------------------------------------------------------

  /** The value of a non-empty run of ASCII digits, most significant first. */
  function DigitsValue(s: string): nat
    requires AllSatisfy(s, IsAsciiDigit)
  {
    if s == [] then 0
    else
      assert AllSatisfy(s[..|s| - 1], IsAsciiDigit) by {
        assert forall i :: 0 <= i < |s| - 1 ==> s[..|s| - 1][i] == s[i];
      }
      10 * DigitsValue(s[..|s| - 1]) + (s[|s| - 1] as int - '0' as int)
  }

  /** Digits, with single underscores allowed between two digits. */
  predicate IsDigitGroup(s: string) {
    && s != []
    && (forall i :: 0 <= i < |s| ==> IsAsciiDigit(s[i]) || s[i] == '_')
    && IsAsciiDigit(s[0]) && IsAsciiDigit(s[|s| - 1])
    && (forall i :: 0 <= i < |s| - 1 ==> !(s[i] == '_' && s[i + 1] == '_'))
  }

  /** The digits of a digit group, underscores removed. */
  lemma GroupDigits(s: string)
    requires IsDigitGroup(s)
    ensures AllSatisfy(RemoveChar(s, '_'), IsAsciiDigit)
  {
    var r := RemoveChar(s, '_');
    forall i | 0 <= i < |r| ensures IsAsciiDigit(r[i]) {
      assert r[i] in s;
    }
  }

  /** A digit group's value; `None` when `body` is not one. */
  function Unsigned(body: string): Option<int> {
    if IsDigitGroup(body) then
      GroupDigits(body);
      Some(DigitsValue(RemoveChar(body, '_')))
    else None
  }

  /**
   * `int(s)`: surrounding whitespace, an optional sign, then a digit group.
   * `None` stands for the `ValueError`.
   */
  function ParseInt(s: string): (r: Option<int>)
    ensures Trim(s, IsSpace) == [] ==> r == None
  {
    ParseSigned(Trim(s, IsSpace))
  }

  /** `int` of text without surrounding whitespace: an optional sign, then a digit group. */
  function ParseSigned(t: string): Option<int> {
    if t != [] && t[0] == '-' then
      match Unsigned(t[1..])
      case None => None
      case Some(v) => Some(-v)
    else if t != [] && t[0] == '+' then
      match Unsigned(t[1..])
      case None => None
      case Some(v) => Some(v)
    else
      match Unsigned(t)
      case None => None
      case Some(v) => Some(v)
  }

  function Digit(d: nat): char
    requires d < 10
  {
    ('0' as int + d) as char
  }

  /** `str(n)` for a natural number. */
  function DecimalString(n: nat): (r: string)
    ensures r != [] && AllSatisfy(r, IsAsciiDigit)
  {
    if n < 10 then [Digit(n)] else DecimalString(n / 10) + [Digit(n % 10)]
  }

  lemma {:induction false} DigitsOfDecimal(n: nat)
    ensures DigitsValue(DecimalString(n)) == n
  {
    var s := DecimalString(n);
    if n >= 10 {
      DigitsOfDecimal(n / 10);
      assert s[..|s| - 1] == DecimalString(n / 10);
    }
  }

  /** `int(str(n)) == n`. */
  lemma ParseIntDecimal(n: nat)
    ensures ParseInt(DecimalString(n)) == Some(n)
  {
    var s := DecimalString(n);
    assert IsAsciiDigit(s[0]) && IsAsciiDigit(s[|s| - 1]);
    TrimNoop(s, IsSpace);
    UnsignedDecimal(n);
  }

  lemma UnsignedDecimal(n: nat)
    ensures Unsigned(DecimalString(n)) == Some(n)
  {
    var s := DecimalString(n);
    assert forall i :: 0 <= i < |s| ==> IsAsciiDigit(s[i]);
    assert '_' !in s;
    DigitsOfDecimal(n);
  }

  /** `int("-" + str(n)) == -n`. */
  lemma ParseIntNegative(n: nat)
    ensures ParseInt("-" + DecimalString(n)) == Some(0 - n)
  {
    var d := DecimalString(n);
    assert IsAsciiDigit(d[|d| - 1]);
    UnsignedDecimal(n);
    ParseIntMinus(d, n);
  }

  /** A `-` in front of a body that ends in no whitespace negates the body's value. */
  lemma ParseIntMinus(body: string, v: int)
    requires body != [] && !IsSpace(body[|body| - 1]) && Unsigned(body) == Some(v)
    ensures ParseInt("-" + body) == Some(0 - v)
  {
    MinusSlices(body);
    TrimNoop("-" + body, IsSpace);
    ParseSignedMinus("-" + body, body, v);
  }

  lemma MinusSlices(body: string)
    requires body != []
    ensures ("-" + body)[0] == '-' && ("-" + body)[1..] == body
    ensures ("-" + body)[|"-" + body| - 1] == body[|body| - 1]
  {
  }

  lemma ParseSignedMinus(t: string, body: string, v: int)
    requires t != [] && t[0] == '-' && t[1..] == body && Unsigned(body) == Some(v)
    ensures ParseSigned(t) == Some(0 - v)
  {
  }

  // ---------------------------------------------------------------------
  // Address splitting (mqtt_connect, panel_connect)
  // ---------------------------------------------------------------------

  /** Why an address could not be split: the unpacking of `split(':')` or the `int` of the port failed. */
  datatype AddressError = NotTwoParts(parts: nat) | BadPort(text: string)

  /** `host, port = text.split(':')` followed by `int(port)`. */
  function HostAndPort(text: string): (r: Result<(string, int), AddressError>)
    ensures |SplitOn(text, ':')| != 2 <==> r == Err(NotTwoParts(|SplitOn(text, ':')|))
    ensures |SplitOn(text, ':')| == 2 ==> (r.Ok? <==> ParseInt(SplitOn(text, ':')[1]).Some?)
    ensures |SplitOn(text, ':')| == 2 && ParseInt(SplitOn(text, ':')[1]).None? ==> r == Err(BadPort(SplitOn(text, ':')[1]))
    ensures r.Ok? ==>
      && text == r.value.0 + ":" + SplitOn(text, ':')[1] && ':' !in r.value.0
      && ParseInt(SplitOn(text, ':')[1]) == Some(r.value.1)
  {
    var parts := SplitOn(text, ':');
    if |parts| != 2 then Err(NotTwoParts(|parts|))
    else
      JoinSplitOn(text, ':');
      assert Join([':'], parts) == parts[0] + [':'] + Join([':'], parts[1..]) by {
        assert parts == [parts[0]] + [parts[1]];
        JoinAppend([':'], [parts[0]], [parts[1]]);
      }
      assert Join([':'], parts[1..]) == parts[1];
      match ParseInt(parts[1])
      case None => Err(BadPort(parts[1]))
      case Some(p) => Ok((parts[0], p))
  }

  /** `mqtt_connect`: the host (`None` when no destination is given) and port it connects to. */
  function MqttAddress(dest: Option<string>, port: int): (r: Result<(Option<string>, int), AddressError>)
    ensures dest.None? ==> r == Ok((None, port))
    ensures dest.Some? && ':' !in dest.value ==> r == Ok((Some(dest.value), port))
    ensures r.Err? <==> dest.Some? && ':' in dest.value && HostAndPort(dest.value).Err?
    ensures r.Err? ==> r.error == HostAndPort(dest.value).error
    ensures r.Ok? && dest.Some? ==> r.value.0.Some? && ':' !in r.value.0.value
    ensures r.Ok? && dest.Some? && ':' in dest.value ==>
      dest.value == r.value.0.value + ":" + SplitOn(dest.value, ':')[1] && ParseInt(SplitOn(dest.value, ':')[1]) == Some(r.value.1)
  {
    if dest.None? then Ok((None, port))
    else if ':' in dest.value then
      match HostAndPort(dest.value)
      case Err(e) => Err(e)
      case Ok((h, p)) => Ok((Some(h), p))
    else Ok((Some(dest.value), port))
  }

  /** How `panel_connect` reaches the panel. */
  datatype PanelLink = Tcp(host: string, port: int) | Serial(device: string)

  function PanelSource(source: string): (r: Result<PanelLink, AddressError>)
    ensures ':' !in source ==> r == Ok(Serial(source))
    ensures r.Err? <==> ':' in source && HostAndPort(source).Err?
    ensures r.Err? ==> r.error == HostAndPort(source).error
    ensures r.Ok? && r.value.Tcp? ==>
      && ':' in source && ':' !in r.value.host
      && source == r.value.host + ":" + SplitOn(source, ':')[1] && ParseInt(SplitOn(source, ':')[1]) == Some(r.value.port)
  {
    if ':' in source then
      match HostAndPort(source)
      case Err(e) => Err(e)
      case Ok((h, p)) => Ok(Tcp(h, p))
    else Ok(Serial(source))
  }

  lemma SplitHostPort(host: string, port: nat)
    requires ':' !in host
    ensures SplitOn(host + ":" + DecimalString(port), ':') == [host, DecimalString(port)]
  {
    var d := DecimalString(port);
    assert ':' !in d by {
      forall i | 0 <= i < |d| ensures d[i] != ':' {
        assert IsAsciiDigit(d[i]);
      }
    }
    assert host + ":" + d == host + [':'] + d;
    SplitOnFirst(host, ':', d);
  }

  /** A destination `host:port` connects to that host and port, whatever the default port. */
  lemma MqttAddressSplits(host: string, port: nat, default: int)
    requires ':' !in host
    ensures MqttAddress(Some(host + ":" + DecimalString(port)), default) == Ok((Some(host), port))
    ensures MqttAddress(Some(host), default) == Ok((Some(host), default))
  {
    SplitHostPort(host, port);
    ParseIntDecimal(port);
    assert ':' in host + ":" + DecimalString(port) by {
      assert (host + ":" + DecimalString(port))[|host|] == ':';
    }
  }

  /** A source with a port is a TCP connection, one without a serial device. */
  lemma PanelSourceSplits(host: string, port: nat)
    requires ':' !in host
    ensures PanelSource(host + ":" + DecimalString(port)) == Ok(Tcp(host, port))
    ensures PanelSource(host) == Ok(Serial(host))
  {
    SplitHostPort(host, port);
    ParseIntDecimal(port);
    assert ':' in host + ":" + DecimalString(port) by {
      assert (host + ":" + DecimalString(port))[|host|] == ':';
    }
  }

  /** Two colons are one too many for the unpacking, whatever the default port. */
  lemma TwoColonsFail(a: string, b: string, c: string, port: int)
    requires ':' !in a && ':' !in b && ':' !in c
    ensures MqttAddress(Some(a + ":" + b + ":" + c), port) == Err(NotTwoParts(3))
  {
    var s := a + ":" + b + ":" + c;
    assert s == a + [':'] + (b + [':'] + c);
    SplitOnFirst(a, ':', b + [':'] + c);
    SplitOnFirst(b, ':', c);
    assert ':' in s by {
      assert s[|a|] == ':';
    }
  }

  // ---------------------------------------------------------------------
  // Reconnect backoff (_on_connect, _on_disconnect)
  // ---------------------------------------------------------------------

  const DisconnectRetries := 3
  const DisconnectRetryWaitMax := 30

  /** A callback's reason code: a paho `ReasonCode` (only whether it is a failure matters) or a plain integer. */
  datatype ReasonCode = Reason(isFailure: bool) | IntCode(code: int)

  /** What a disconnect leads to: sleeping `wait` seconds and reconnecting, disconnecting and raising, or nothing. */
  datatype DisconnectAction = Reconnect(wait: int) | GiveUp | NoAction

  /** The retry counters after one disconnect, and what the callback does. */
  datatype Backoff = Backoff(num: int, wait: int, action: DisconnectAction)

  function DisconnectStep(num: int, wait: int, reason: ReasonCode): (r: Backoff)
    ensures reason != Reason(true) ==> r == Backoff(num, wait, NoAction)
    ensures reason == Reason(true) && num >= DisconnectRetries ==> r == Backoff(num, wait, GiveUp)
    ensures reason == Reason(true) && num < DisconnectRetries ==>
      r.num == num + 1 && r.action == Reconnect(r.wait)
      && r.wait == (if 2 * wait < DisconnectRetryWaitMax then 2 * wait else DisconnectRetryWaitMax)
  {
    if reason.Reason? && reason.isFailure then
      if num < DisconnectRetries then
        var w := if wait * 2 < DisconnectRetryWaitMax then wait * 2 else DisconnectRetryWaitMax;
        Backoff(num + 1, w, Reconnect(w))
      else Backoff(num, wait, GiveUp)
    else Backoff(num, wait, NoAction)
  }

  /** From the reset state, failure disconnects wait 2, 4 and 8 seconds, and the fourth gives up. */
  lemma BackoffSchedule()
    ensures DisconnectStep(0, 1, Reason(true)) == Backoff(1, 2, Reconnect(2))
    ensures DisconnectStep(1, 2, Reason(true)) == Backoff(2, 4, Reconnect(4))
    ensures DisconnectStep(2, 4, Reason(true)) == Backoff(3, 8, Reconnect(8))
    ensures DisconnectStep(3, 8, Reason(true)) == Backoff(3, 8, GiveUp)
  {
  }

  /** The counters stay within their bounds whatever the reason. */
  predicate CountersInRange(num: int, wait: int) {
    0 <= num <= DisconnectRetries && 1 <= wait <= DisconnectRetryWaitMax
  }

  lemma DisconnectStepInRange(num: int, wait: int, reason: ReasonCode)
    requires CountersInRange(num, wait)
    ensures CountersInRange(DisconnectStep(num, wait, reason).num, DisconnectStep(num, wait, reason).wait)
  {
  }

  // ---------------------------------------------------------------------
  // The client
  // ---------------------------------------------------------------------

  /** Why a callback raised. */
  datatype CallbackError = ConnectFailed | RetriesExhausted | NotIterable

  /**
   * `_on_message` as written: it iterates over what the router returns, and
   * iterating over `None` raises `TypeError`.
   */
  function OnMessageAsWritten(f: Messages.Formatter, topic: string, msg: string): Result<seq<(string, Json)>, CallbackError> {
    match Messages.Route(f, topic, msg).reply
    case None => Err(NotIterable)
    case Some(replies) => Ok(replies)
  }

  /**
   * A command topic for an id that is no control's is delivered by the
   * bridge's own subscription, and the callback then raises.
   */
  lemma UnknownCommandRaises(f: Messages.Formatter, id: string, msg: string)
    requires f.root == f.discoverPrefix + "/device/" + f.identifier
    requires f.statusPath == f.discoverPrefix + "/status"
    requires '/' !in id && forall i :: 0 <= i < |f.controls| ==> f.controls[i].1.id != id
    ensures Messages.Matches(Messages.SubscriptionTopics(f)[0], f.root + "/" + id + "/set")
    ensures OnMessageAsWritten(f, f.root + "/" + id + "/set", msg) == Err(NotIterable)
  {
    var c := Messages.Control(Lights, id, id);
    Messages.SubscriptionReceivesCommands(f, c);
    Messages.CommandIsNotStatus(f, c);
    forall i | 0 <= i < |f.controls| ensures Messages.CommandTopic(f, f.controls[i].1) != Messages.CommandTopic(f, c) {
      if Messages.CommandTopic(f, f.controls[i].1) == Messages.CommandTopic(f, c) {
        Messages.CommandIdCancel(f.root, f.controls[i].1.id, id);
      }
    }
  }

  /** The evidently intended callback: nothing to publish when nothing matched. */
  function OnMessageReplies(f: Messages.Formatter, topic: string, msg: string): (r: seq<(string, Json)>)
    ensures Messages.Route(f, topic, msg).reply.None? ==> r == []
    ensures Messages.Route(f, topic, msg).reply.Some? ==> r == Messages.Route(f, topic, msg).reply.value
  {
    var reply := Messages.Route(f, topic, msg).reply;
    if reply.Some? then reply.value else []
  }

  /** With the correction an unknown command publishes nothing and changes nothing. */
  lemma UnknownCommandIgnored(f: Messages.Formatter, id: string, msg: string)
    requires f.root == f.discoverPrefix + "/device/" + f.identifier
    requires f.statusPath == f.discoverPrefix + "/status"
    requires '/' !in id && forall i :: 0 <= i < |f.controls| ==> f.controls[i].1.id != id
    ensures OnMessageReplies(f, f.root + "/" + id + "/set", msg) == []
    ensures Messages.Requests(Messages.Route(f, f.root + "/" + id + "/set", msg)) == []
  {
    UnknownCommandRaises(f, id, msg);
  }

  class BridgeClient {
    const formatter: Messages.Formatter
    const pman: Panelmanager.PanelManager
    var retryNum: int
    var retryWait: int
    /** Every topic subscribed to so far. */
    var subscriptions: seq<string>
    /** Every message published so far, with its topic. */
    var published: seq<(string, Json)>

    predicate Valid()
      reads this
    {
      CountersInRange(retryNum, retryWait)
    }

    constructor(formatter: Messages.Formatter, pman: Panelmanager.PanelManager)
      ensures Valid() && retryNum == 0 && retryWait == 1
      ensures subscriptions == [] && published == []
      ensures this.formatter == formatter && this.pman == pman
    {
      this.formatter := formatter;
      this.pman := pman;
      retryNum := 0;
      retryWait := 1;
      subscriptions := [];
      published := [];
    }

    /**
     * `_on_connect`: a failure raises before anything changes; otherwise the
     * counters are reset, the command topics subscribed and the discovery
     * message published.
     */
    method OnConnect(reason: ReasonCode) returns (r: Result<(), CallbackError>)
      requires Valid()
      modifies this
      ensures Valid()
      ensures reason == Reason(true) ==>
        r == Err(ConnectFailed) && retryNum == old(retryNum) && retryWait == old(retryWait)
        && subscriptions == old(subscriptions) && published == old(published)
      ensures reason != Reason(true) ==>
        && r == Ok(()) && retryNum == 0 && retryWait == 1
        && subscriptions == old(subscriptions) + Messages.SubscriptionTopics(formatter)
        && published == old(published) + [(Messages.DiscoveryTopic(formatter), Messages.DiscoveryMessage(formatter))]
    {
      if reason.Reason? && reason.isFailure {
        return Err(ConnectFailed);
      }
      retryNum := 0;
      retryWait := 1;
      var topics := Messages.SubscriptionTopics(formatter);
      for i := 0 to |topics|
        invariant subscriptions == old(subscriptions) + topics[..i]
        invariant Valid() && retryNum == 0 && retryWait == 1 && published == old(published)
      {
        PrefixStep(topics, i);
        subscriptions := subscriptions + [topics[i]];
      }
      Whole(topics);
      var m := Messages.GetDiscoveryMessage(formatter);
      published := published + [(Messages.DiscoveryTopic(formatter), m)];
      r := Ok(());
    }

    /** `_on_disconnect`: one backoff step; giving up raises. */
    method OnDisconnect(reason: ReasonCode) returns (action: DisconnectAction, r: Result<(), CallbackError>)
      requires Valid()
      modifies this
      ensures Valid()
      ensures Backoff(retryNum, retryWait, action) == DisconnectStep(old(retryNum), old(retryWait), reason)
      ensures r.Err? <==> action == GiveUp
      ensures subscriptions == old(subscriptions) && published == old(published)
    {
      action := NoAction;
      r := Ok(());
      if reason.Reason? {
        if reason.isFailure {
          if retryNum < DisconnectRetries {
            retryNum := retryNum + 1;
            retryWait := if retryWait * 2 < DisconnectRetryWaitMax then retryWait * 2 else DisconnectRetryWaitMax;
            action := Reconnect(retryWait);
          } else {
            action := GiveUp;
            r := Err(RetriesExhausted);
          }
        }
      }
    }

    /**
     * `_on_message`, with the correction: the router's replies are published
     * in order, none when nothing matched.
     */
    method OnMessage(topic: string, msg: string, panel: Panel)
      modifies this, panel
      ensures panel.requests == old(panel.requests) + Messages.Requests(Messages.Route(formatter, topic, msg))
      ensures published == old(published) + OnMessageReplies(formatter, topic, msg)
      ensures retryNum == old(retryNum) && retryWait == old(retryWait) && subscriptions == old(subscriptions)
    {
      var replies := Messages.HandleMessageOnTopic(formatter, topic, msg, panel);
      if replies.None? {
        return;
      }
      PublishAll(replies.value);
    }

    /** The loop over the replies: each is published, in order. */
    method PublishAll(todo: seq<(string, Json)>)
      modifies this
      ensures published == old(published) + todo
      ensures retryNum == old(retryNum) && retryWait == old(retryWait) && subscriptions == old(subscriptions)
    {
      for i := 0 to |todo|
        invariant published == old(published) + todo[..i]
        invariant retryNum == old(retryNum) && retryWait == old(retryWait) && subscriptions == old(subscriptions)
      {
        PrefixStep(todo, i);
        published := published + [todo[i]];
      }
      Whole(todo);
    }

    /**
     * `_panel_changed`: the panel's check-system message is observed first,
     * so the published state already counts it; the state message is then
     * published once on the state topic.
     */
    method PanelChanged(panel: Snapshot, now: int)
      modifies this, pman
      ensures retryNum == old(retryNum) && retryWait == old(retryWait) && subscriptions == old(subscriptions)
      ensures panel.checkSystemMsg.None? ==> pman.registry == old(pman.registry)
      ensures panel.checkSystemMsg.Some? ==>
        pman.registry == Panelmanager.Observe(old(pman.registry), Panelmanager.StripMessage(panel.checkSystemMsg.value), now, pman.expS)
      ensures pman.lastTextUpdate == old(pman.lastTextUpdate)
      ensures pman.lcdLine0 == old(pman.lcdLine0) && pman.lcdLine1 == old(pman.lcdLine1)
      ensures published == old(published) +
        [(Messages.StateTopic(formatter), JObj(Messages.StateRecord(formatter, panel, pman.SystemMessages())))]
    {
      pman.ObserveSystemMessage(panel.checkSystemMsg, now);
      var msg := Messages.GetStateMessage(formatter, panel, pman);
      published := published + [(Messages.StateTopic(formatter), msg)];
    }
  }
}
