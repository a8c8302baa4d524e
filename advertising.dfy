/**
 * The control sequences of src/Tag.c: `enable_advertising` opens the
 * radio, sets the advertising parameters, enables advertising and sends the
 * advertising data; `disable_advertising` opens the radio and disables
 * advertising. Both run against the scripted controller of module Hci, so
 * every call they make and every value it returned is in the trace.
 *
 * `EnableRun` and `DisableRun` state, as functions of the scripts, the
 * result code and the calls each operation makes; the methods are proved to
 * behave exactly so, and the lemmas below state the protocol properties of
 * those runs: the open retry budget, the order of the requests, the handle
 * closed exactly once, and how replies map to result codes.
 */
module Advertising {
  import opened TagConstants
  import opened Hci
  import opened AdPayload

  /** `advtype` 3: non-connectable undirected advertising. */
  const ADV_NONCONN_IND: byte := 3

  /** `chan_map` 0b111: advertise on channels 37, 38 and 39. */
  const ALL_CHANNELS: byte := 7

  /** A C `int` stored into a `uint16_t` field: reduced modulo 2^16. */
  function ToUint16(x: int): (r: nat)
    ensures r < 0x1_0000
    ensures 0 <= x < 0x1_0000 ==> r == x
  {
    x % 0x1_0000
  }

  /** Request 1 of `enable_advertising`: minimum = maximum = the interval. */
  function ParametersCommand(interval: int): (c: Command)
    ensures c.SetAdvertisingParameters? && c.Opcode() == 0x2006
    ensures c.minInterval == c.maxInterval < 0x1_0000
    ensures 0 <= interval < 0x1_0000 ==> c.minInterval == interval
    ensures c.advType == ADV_NONCONN_IND && c.chanMap == ALL_CHANNELS
  {
    SetAdvertisingParameters(ToUint16(interval), ToUint16(interval), ADV_NONCONN_IND, ALL_CHANNELS)
  }

  /** Request 3 of `enable_advertising`: the payload built from the UUID string. */
  function DataCommand(uuid: string): (c: Command)
    requires IsUuidText(uuid)
    ensures c.SetAdvertisingData? && c.Opcode() == 0x2008
    ensures c.length == 16 && |c.data| == ADVERTISING_DATA_SIZE
    ensures ParseAd(c.data) == Some(TagStructures(IdentifierBytes(uuid)))
  {
    AdvertisingDataLayout(IdentifierBytes(uuid));
    AdvertisingDataParses(IdentifierBytes(uuid));
    SetAdvertisingData(TotalSize(TagStructures(IdentifierBytes(uuid))), AdvertisingData(IdentifierBytes(uuid)))
  }

  /** The requests `enable_advertising` sends, in order, when none fails in transport. */
  function EnableCommands(interval: int, uuid: string): (cs: seq<Command>)
    requires IsUuidText(uuid)
    ensures |cs| == 3
    ensures cs[0].Opcode() == 0x2006 && cs[1].Opcode() == 0x200A && cs[2].Opcode() == 0x2008
    ensures cs[1].enable == 1
  {
    [ParametersCommand(interval), SetAdvertiseEnable(1), DataCommand(uuid)]
  }

  /** The outcome of the open retry loop: the calls made, `device_handle` after it, and the script left. */
  datatype OpenRun = OpenRun(events: seq<Event>, handle: int, opensLeft: seq<int>)

  /**
   * The retry loop: up to `retries` opens, stopping at the first handle that
   * is not negative; `handle` is the value `device_handle` holds before it.
   */
  function RetryOpen(devId: int, opens: seq<int>, retries: nat, handle: int): OpenRun
  {
    if retries == 0 then OpenRun([], handle, opens)
    else
      var h := NextOpen(opens);
      if h >= 0 then OpenRun([Opened(devId, h)], h, Rest(opens))
      else
        var rest := RetryOpen(devId, Rest(opens), retries - 1, h);
        OpenRun([Opened(devId, h)] + rest.events, rest.handle, rest.opensLeft)
  }

  /**
   * The retry loop makes at most `retries` opens, at least one when it may
   * make any; every attempt before the last failed; it stops early only on
   * success; and its handle is the one the last attempt returned.
   */
  lemma {:induction false} RetryOpenAttempts(devId: int, opens: seq<int>, retries: nat, handle: int)
    ensures var r := RetryOpen(devId, opens, retries, handle);
            && |r.events| <= retries
            && (retries > 0 ==> |r.events| > 0 && r.handle == r.events[|r.events| - 1].handle)
            && (retries == 0 ==> r.handle == handle)
            && (forall i :: 0 <= i < |r.events| ==> r.events[i] == Opened(devId, r.events[i].handle))
            && (forall i :: 0 <= i < |r.events| - 1 ==> r.events[i].handle < 0)
            && (|r.events| < retries ==> r.handle >= 0)
  {
    if retries > 0 && NextOpen(opens) < 0 {
      var h := NextOpen(opens);
      RetryOpenAttempts(devId, Rest(opens), retries - 1, h);
      var rest := RetryOpen(devId, Rest(opens), retries - 1, h);
      var r := RetryOpen(devId, opens, retries, handle);
      assert r.events == [Opened(devId, h)] + rest.events;
      forall i | 0 <= i < |r.events|
        ensures r.events[i] == Opened(devId, r.events[i].handle)
      {
        if i > 0 {
          assert r.events[i] == rest.events[i - 1];
        }
      }
      forall i | 0 <= i < |r.events| - 1
        ensures r.events[i].handle < 0
      {
        if i > 0 {
          assert r.events[i] == rest.events[i - 1];
        }
      }
    }
  }

  /**
   * One turn of the retry loop, stated about the run as a whole: `done` is
   * the opens made so far and `all` the run they are a prefix of. A failed
   * open leaves the remaining turns to do; a successful one ends the run.
   */
  lemma RetryOpenTurn(devId: int, script: seq<int>, retries: nat, handle: int, done: seq<Event>, all: OpenRun)
    requires retries > 0
    requires var rest := RetryOpen(devId, script, retries, handle);
             all == OpenRun(done + rest.events, rest.handle, rest.opensLeft)
    ensures var h := NextOpen(script);
            var rest := RetryOpen(devId, Rest(script), retries - 1, h);
            if h >= 0 then all == OpenRun(done + [Opened(devId, h)], h, Rest(script))
            else all == OpenRun(done + [Opened(devId, h)] + rest.events, rest.handle, rest.opensLeft)
  {
    var h := NextOpen(script);
    var rest := RetryOpen(devId, Rest(script), retries - 1, h);
    if h < 0 {
      assert done + ([Opened(devId, h)] + rest.events) == done + [Opened(devId, h)] + rest.events;
    }
  }

  /** The opens both operations make before any request. */
  function OpenDeviceRun(devId: int, opens: seq<int>): OpenRun
  {
    RetryOpen(devId, opens, SOCKET_OPEN_RETRY, 0)
  }

  /** An operation's result code, the calls it made, and the scripts it left. */
  datatype Run = Run(code: ErrorCode, events: seq<Event>, opensLeft: seq<int>, repliesLeft: seq<Reply>)

  /** What `enable_advertising` does against a controller with these scripts. */
  function EnableRun(devId: int, interval: int, uuid: string, opens: seq<int>, replies: seq<Reply>): (r: Run)
    requires IsUuidText(uuid)
    ensures r.code in {WorkSuccessfully, OpenDeviceError, AdvertiseStatusError, SendRequestTimeout}
    ensures r.code == OpenDeviceError ==> r.repliesLeft == replies
    ensures r.code == WorkSuccessfully ==> |replies| >= 3
  {
    if devId < 0 then Run(OpenDeviceError, [], opens, replies)
    else
      var o := OpenDeviceRun(devId, opens);
      var h := o.handle;
      if h < 0 then Run(OpenDeviceError, o.events, o.opensLeft, replies)
      else
        var r1 := NextReply(replies);
        var e1 := o.events + [Sent(h, ParametersCommand(interval), r1)];
        if r1.result < 0 then Run(SendRequestTimeout, e1 + [Closed(h)], o.opensLeft, Rest(replies))
        else
          var r2 := NextReply(Rest(replies));
          var e2 := e1 + [Sent(h, SetAdvertiseEnable(1), r2)];
          if r2.result < 0 then Run(SendRequestTimeout, e2 + [Closed(h)], o.opensLeft, Rest(Rest(replies)))
          else
            var r3 := NextReply(Rest(Rest(replies)));
            var e3 := e2 + [Sent(h, DataCommand(uuid), r3), Closed(h)];
            var code := if r3.result < 0 then SendRequestTimeout
                        else if r3.status != 0 then AdvertiseStatusError
                        else WorkSuccessfully;
            Run(code, e3, o.opensLeft, Rest(Rest(Rest(replies))))
  }

  /** What `disable_advertising` does against a controller with these scripts. */
  function DisableRun(devId: int, opens: seq<int>, replies: seq<Reply>): (r: Run)
    ensures r.code in {WorkSuccessfully, OpenDeviceError, AdvertiseStatusError, AdvertiseModeError}
    ensures r.code == OpenDeviceError ==> r.repliesLeft == replies
    ensures r.code == WorkSuccessfully ==> |replies| >= 1
  {
    if devId < 0 then Run(OpenDeviceError, [], opens, replies)
    else
      var o := OpenDeviceRun(devId, opens);
      var h := o.handle;
      if h < 0 then Run(OpenDeviceError, o.events, o.opensLeft, replies)
      else
        var r := NextReply(replies);
        var code := if r.result < 0 then AdvertiseModeError
                    else if r.status != 0 then AdvertiseStatusError
                    else WorkSuccessfully;
        Run(code, o.events + [Sent(h, SetAdvertiseEnable(0), r), Closed(h)], o.opensLeft, Rest(replies))
  }

  /** The requests of a trace, in the order they were sent. */
  function Requests(events: seq<Event>): (r: seq<Event>)
    ensures |r| <= |events|
    ensures forall i :: 0 <= i < |r| ==> r[i].Sent?
  {
    if events == [] then []
    else (if events[0].Sent? then [events[0]] else []) + Requests(events[1..])
  }

  /** How many closes a trace holds. */
  function CountClosed(events: seq<Event>): nat
  {
    if events == [] then 0
    else (if events[0].Closed? then 1 else 0) + CountClosed(events[1..])
  }

  /** How many opens a trace holds. */
  function CountOpened(events: seq<Event>): nat
  {
    if events == [] then 0
    else (if events[0].Opened? then 1 else 0) + CountOpened(events[1..])
  }

  lemma {:induction false} RequestsAppend(a: seq<Event>, b: seq<Event>)
    ensures Requests(a + b) == Requests(a) + Requests(b)
  {
    if a != [] {
      var ab := a + b;
      assert ab[0] == a[0] && ab[1..] == a[1..] + b;
      RequestsAppend(a[1..], b);
      assert Requests(ab) == (if a[0].Sent? then [a[0]] else []) + Requests(a[1..] + b);
    } else {
      assert a + b == b;
    }
  }

  lemma {:induction false} CountClosedAppend(a: seq<Event>, b: seq<Event>)
    ensures CountClosed(a + b) == CountClosed(a) + CountClosed(b)
  {
    if a != [] {
      var ab := a + b;
      assert ab[0] == a[0] && ab[1..] == a[1..] + b;
      CountClosedAppend(a[1..], b);
      assert CountClosed(ab) == (if a[0].Closed? then 1 else 0) + CountClosed(a[1..] + b);
    } else {
      assert a + b == b;
    }
  }

  lemma {:induction false} CountOpenedAppend(a: seq<Event>, b: seq<Event>)
    ensures CountOpened(a + b) == CountOpened(a) + CountOpened(b)
  {
    if a != [] {
      var ab := a + b;
      assert ab[0] == a[0] && ab[1..] == a[1..] + b;
      CountOpenedAppend(a[1..], b);
      assert CountOpened(ab) == (if a[0].Opened? then 1 else 0) + CountOpened(a[1..] + b);
    } else {
      assert a + b == b;
    }
  }

  /** A trace of opens only: no requests, no closes, one open per event. */
  lemma {:induction false} OpensOnly(events: seq<Event>)
    requires forall i :: 0 <= i < |events| ==> events[i].Opened?
    ensures Requests(events) == [] && CountClosed(events) == 0 && CountOpened(events) == |events|
  {
    if events != [] {
      OpensOnly(events[1..]);
    }
  }

  /** A trace of requests only: it is its own list of requests, with no open and no close. */
  lemma {:induction false} RequestsOnly(events: seq<Event>)
    requires forall i :: 0 <= i < |events| ==> events[i].Sent?
    ensures Requests(events) == events && CountClosed(events) == 0 && CountOpened(events) == 0
  {
    if events != [] {
      RequestsOnly(events[1..]);
      assert events == [events[0]] + events[1..];
    }
  }

  /**
   * The open phase of both operations: one to SOCKET_OPEN_RETRY opens of the
   * dongle, nothing else; every attempt before the last failed; the handle
   * kept is the last one returned; and it is negative only when every one of
   * the SOCKET_OPEN_RETRY attempts failed.
   */
  lemma OpenDeviceAttempts(devId: int, opens: seq<int>)
    ensures var o := OpenDeviceRun(devId, opens);
            && 1 <= |o.events| <= SOCKET_OPEN_RETRY
            && (forall i :: 0 <= i < |o.events| ==> o.events[i] == Opened(devId, o.events[i].handle))
            && (forall i :: 0 <= i < |o.events| - 1 ==> o.events[i].handle < 0)
            && o.handle == o.events[|o.events| - 1].handle
            && (o.handle < 0 <==> |o.events| == SOCKET_OPEN_RETRY && forall i :: 0 <= i < |o.events| ==> o.events[i].handle < 0)
            && Requests(o.events) == [] && CountClosed(o.events) == 0 && CountOpened(o.events) == |o.events|
  {
    RetryOpenAttempts(devId, opens, SOCKET_OPEN_RETRY, 0);
    OpensOnly(OpenDeviceRun(devId, opens).events);
  }

  /** The script of replies after `n` requests. */
  function Drop<T>(script: seq<T>, n: nat): seq<T>
  {
    if n <= |script| then script[n..] else []
  }

  /** The reply request number `i` (from 0) gets. */
  function ReplyAt(replies: seq<Reply>, i: nat): Reply
  {
    if i < |replies| then replies[i] else Reply(-1, 0)
  }

  /** A session: the opens, the requests on one handle, then the close of that handle. */
  lemma SessionTrace(openings: seq<Event>, sends: seq<Event>, h: int)
    requires forall i :: 0 <= i < |openings| ==> openings[i].Opened?
    requires forall i :: 0 <= i < |sends| ==> sends[i].Sent?
    ensures var e := openings + sends + [Closed(h)];
            && Requests(e) == sends && CountClosed(e) == 1 && CountOpened(e) == |openings|
            && e[|e| - 1] == Closed(h)
  {
    OpensOnly(openings);
    RequestsOnly(sends);
    RequestsAppend(openings, sends);
    RequestsAppend(openings + sends, [Closed(h)]);
    CountClosedAppend(openings, sends);
    CountClosedAppend(openings + sends, [Closed(h)]);
    CountOpenedAppend(openings, sends);
    CountOpenedAppend(openings + sends, [Closed(h)]);
    assert Requests([Closed(h)]) == [];
  }

  /**
   * Requests `cmds` sent in order on handle `h`, each answered by the next
   * scripted reply, up to and including the first that fails in transport.
   */
  function SendUntilFailure(h: int, cmds: seq<Command>, replies: seq<Reply>): seq<Event>
  {
    if cmds == [] then []
    else
      var r := NextReply(replies);
      [Sent(h, cmds[0], r)] + (if r.result < 0 then [] else SendUntilFailure(h, cmds[1..], Rest(replies)))
  }

  /**
   * Such a run sends at least one request when there is one to send, sends
   * them in order with the replies in order, and stops early exactly when a
   * request fails in transport; only the last request may fail.
   */
  lemma {:induction false} SendUntilFailureShape(h: int, cmds: seq<Command>, replies: seq<Reply>)
    ensures var sent := SendUntilFailure(h, cmds, replies);
            && |sent| <= |cmds| && (cmds != [] ==> |sent| >= 1)
            && (forall i :: 0 <= i < |sent| ==> sent[i] == Sent(h, cmds[i], ReplyAt(replies, i)))
            && (forall i :: 0 <= i < |sent| - 1 ==> sent[i].reply.result >= 0)
            && (0 < |sent| < |cmds| ==> sent[|sent| - 1].reply.result < 0)
  {
    if cmds != [] && NextReply(replies).result >= 0 {
      var sent := SendUntilFailure(h, cmds, replies);
      var rest := SendUntilFailure(h, cmds[1..], Rest(replies));
      SendUntilFailureShape(h, cmds[1..], Rest(replies));
      assert sent == [Sent(h, cmds[0], NextReply(replies))] + rest;
      forall i | 0 < i < |sent|
        ensures sent[i] == Sent(h, cmds[i], ReplyAt(replies, i))
      {
        assert sent[i] == rest[i - 1];
        assert ReplyAt(replies, i) == ReplyAt(Rest(replies), i - 1);
      }
      forall i | 0 < i < |sent| - 1
        ensures sent[i].reply.result >= 0
      {
        assert sent[i] == rest[i - 1];
      }
      assert 1 < |sent| ==> sent[|sent| - 1] == rest[|rest| - 1];
    }
  }

  /**
   * Once it holds a handle `h`, `enable_advertising` sends the requests of
   * `EnableCommands` until one fails in transport and then closes `h`; its
   * result comes from the reply to the last request sent.
   */
  lemma EnableSends(devId: int, interval: int, uuid: string, opens: seq<int>, replies: seq<Reply>)
    requires IsUuidText(uuid)
    requires devId >= 0 && OpenDeviceRun(devId, opens).handle >= 0
    ensures var run := EnableRun(devId, interval, uuid, opens, replies);
            var o := OpenDeviceRun(devId, opens);
            var sent := SendUntilFailure(o.handle, EnableCommands(interval, uuid), replies);
            && run.events == o.events + sent + [Closed(o.handle)]
            && 1 <= |sent| <= 3 && sent[|sent| - 1].Sent?
            && run.code == (if sent[|sent| - 1].reply.result < 0 then SendRequestTimeout
                            else if sent[|sent| - 1].reply.status != 0 then AdvertiseStatusError
                            else WorkSuccessfully)
            && run.repliesLeft == Drop(replies, |sent|)
  {
    var cmds := EnableCommands(interval, uuid);
    var h := OpenDeviceRun(devId, opens).handle;
    var r1 := NextReply(replies);
    var r2 := NextReply(Rest(replies));
    var r3 := NextReply(Rest(Rest(replies)));
    var sent := SendUntilFailure(h, cmds, replies);
    assert cmds[1..][1..][1..] == [];
    assert Drop(replies, 1) == Rest(replies);
    assert Drop(replies, 2) == Rest(Rest(replies));
    assert Drop(replies, 3) == Rest(Rest(Rest(replies)));
    if r1.result < 0 {
      assert sent == [Sent(h, cmds[0], r1)];
    } else if r2.result < 0 {
      assert sent == [Sent(h, cmds[0], r1), Sent(h, cmds[1], r2)];
    } else {
      var third := SendUntilFailure(h, cmds[1..][1..], Rest(Rest(replies)));
      assert third == [Sent(h, cmds[2], r3)] + (if r3.result < 0 then [] else SendUntilFailure(h, [], Rest(Rest(Rest(replies)))));
      assert sent == [Sent(h, cmds[0], r1), Sent(h, cmds[1], r2), Sent(h, cmds[2], r3)];
    }
  }

  /**
   * The shape of every trace of `enable_advertising` that gets a handle: the
   * opens, then one to three requests on that handle, in the order of
   * `EnableCommands`, each answered by the next scripted reply and only the
   * last possibly failed in transport, then one close of that handle.
   */
  lemma EnableSession(devId: int, interval: int, uuid: string, opens: seq<int>, replies: seq<Reply>)
    requires IsUuidText(uuid)
    requires EnableRun(devId, interval, uuid, opens, replies).code != OpenDeviceError
    ensures var run := EnableRun(devId, interval, uuid, opens, replies);
            var req := Requests(run.events);
            var o := OpenDeviceRun(devId, opens);
            && devId >= 0 && o.handle >= 0
            && 1 <= |req| <= 3
            && run.events == o.events + req + [Closed(o.handle)]
            && CountClosed(run.events) == 1 && CountOpened(run.events) == |o.events|
            && (forall i :: 0 <= i < |req| ==>
                  req[i] == Sent(o.handle, EnableCommands(interval, uuid)[i], ReplyAt(replies, i)))
            && (forall i :: 0 <= i < |req| - 1 ==> req[i].reply.result >= 0)
            && (|req| < 3 ==> req[|req| - 1].reply.result < 0)
            && run.code == (if req[|req| - 1].reply.result < 0 then SendRequestTimeout
                            else if req[|req| - 1].reply.status != 0 then AdvertiseStatusError
                            else WorkSuccessfully)
            && run.repliesLeft == Drop(replies, |req|)
  {
    var o := OpenDeviceRun(devId, opens);
    OpenDeviceAttempts(devId, opens);
    var sent := SendUntilFailure(o.handle, EnableCommands(interval, uuid), replies);
    SendUntilFailureShape(o.handle, EnableCommands(interval, uuid), replies);
    EnableSends(devId, interval, uuid, opens, replies);
    SessionTrace(o.events, sent, o.handle);
  }

  /** Without a handle `enable_advertising` makes no request and no close, and leaves the replies untouched. */
  lemma EnableOpenFailure(devId: int, interval: int, uuid: string, opens: seq<int>, replies: seq<Reply>)
    requires IsUuidText(uuid)
    requires EnableRun(devId, interval, uuid, opens, replies).code == OpenDeviceError
    ensures var run := EnableRun(devId, interval, uuid, opens, replies);
            var e := run.events;
            && Requests(e) == [] && CountClosed(e) == 0 && run.repliesLeft == replies
            && (devId < 0 ==> e == [])
            && (devId >= 0 ==> CountOpened(e) == SOCKET_OPEN_RETRY
                               && forall i :: 0 <= i < |e| ==> e[i].Opened? && e[i].handle < 0)
  {
    if devId >= 0 {
      OpenDeviceAttempts(devId, opens);
    }
  }

  /** A negative dongle id makes `enable_advertising` report `E_OPEN_DEVICE` before any call. */
  lemma EnableRejectsNegativeDevice(devId: int, interval: int, uuid: string, opens: seq<int>, replies: seq<Reply>)
    requires IsUuidText(uuid) && devId < 0
    ensures EnableRun(devId, interval, uuid, opens, replies) == Run(OpenDeviceError, [], opens, replies)
  {
  }

  /**
   * `enable_advertising` opens at most SOCKET_OPEN_RETRY times and, once it
   * holds a handle, sends every request on it and closes it exactly once, as
   * its last call.
   */
  lemma EnableClosesOnce(devId: int, interval: int, uuid: string, opens: seq<int>, replies: seq<Reply>)
    requires IsUuidText(uuid)
    ensures var run := EnableRun(devId, interval, uuid, opens, replies);
            var e := run.events;
            && CountOpened(e) <= SOCKET_OPEN_RETRY
            && (run.code == OpenDeviceError <==> CountClosed(e) == 0)
            && (run.code != OpenDeviceError ==>
                  var h := OpenDeviceRun(devId, opens).handle;
                  && h >= 0 && CountClosed(e) == 1 && e[|e| - 1] == Closed(h)
                  && forall i :: 0 <= i < |e| && e[i].Sent? ==> e[i].handle == h)
  {
    var run := EnableRun(devId, interval, uuid, opens, replies);
    if run.code == OpenDeviceError {
      EnableOpenFailure(devId, interval, uuid, opens, replies);
      if devId < 0 {
        assert run.events == [];
      }
    } else {
      EnableSession(devId, interval, uuid, opens, replies);
      var o := OpenDeviceRun(devId, opens);
      OpenDeviceAttempts(devId, opens);
      var req := Requests(run.events);
      forall i | 0 <= i < |run.events| && run.events[i].Sent?
        ensures run.events[i].handle == o.handle
      {
        if |o.events| <= i < |o.events| + |req| {
          assert run.events[i] == req[i - |o.events|];
        }
      }
    }
  }

  /**
   * How `enable_advertising` maps what happened to its result code. A request
   * that fails in transport is the last one sent and gives
   * E_SEND_REQUEST_TIMEOUT; otherwise all three requests are sent and only
   * the status octet of the third decides between success and
   * E_ADVERTISE_STATUS_ERROR.
   */
  lemma EnableResultCode(devId: int, interval: int, uuid: string, opens: seq<int>, replies: seq<Reply>)
    requires IsUuidText(uuid)
    ensures var run := EnableRun(devId, interval, uuid, opens, replies);
            var req := Requests(run.events);
            && (forall i :: 0 <= i < |req| - 1 ==> req[i].reply.result >= 0)
            && (run.code == OpenDeviceError <==> req == [])
            && (run.code == SendRequestTimeout <==> req != [] && req[|req| - 1].reply.result < 0)
            && (run.code == AdvertiseStatusError <==>
                  |req| == 3 && req[2].reply.result >= 0 && req[2].reply.status != 0)
            && (run.code == WorkSuccessfully <==>
                  |req| == 3 && req[2].reply.result >= 0 && req[2].reply.status == 0)
            && run.code != AdvertiseModeError
  {
    var run := EnableRun(devId, interval, uuid, opens, replies);
    if run.code == OpenDeviceError {
      EnableOpenFailure(devId, interval, uuid, opens, replies);
    } else {
      EnableSession(devId, interval, uuid, opens, replies);
    }
  }

  /**
   * The status octets of the first two requests never reach the result: two
   * scripts that differ only there give the same result code.
   */
  lemma EnableIgnoresEarlyStatus(devId: int, interval: int, uuid: string, opens: seq<int>,
                                 replies: seq<Reply>, s1: byte, s2: byte)
    requires IsUuidText(uuid)
    requires |replies| >= 2
    ensures var other := [Reply(replies[0].result, s1), Reply(replies[1].result, s2)] + replies[2..];
            EnableRun(devId, interval, uuid, opens, other).code == EnableRun(devId, interval, uuid, opens, replies).code
  {
    var other := [Reply(replies[0].result, s1), Reply(replies[1].result, s2)] + replies[2..];
    assert NextReply(other).result == NextReply(replies).result;
    assert Rest(other) == [Reply(replies[1].result, s2)] + replies[2..];
    assert NextReply(Rest(other)).result == NextReply(Rest(replies)).result;
    assert Rest(Rest(other)) == replies[2..] == Rest(Rest(replies));
  }

  /** A negative dongle id makes `disable_advertising` report `E_OPEN_DEVICE` before any call. */
  lemma DisableRejectsNegativeDevice(devId: int, opens: seq<int>, replies: seq<Reply>)
    requires devId < 0
    ensures DisableRun(devId, opens, replies) == Run(OpenDeviceError, [], opens, replies)
  {
  }

  /**
   * The shape of every trace of `disable_advertising`: with a handle, exactly
   * one request, SetAdvertiseEnable(0) on that handle, then its close as the
   * last call, whatever the reply; without one, no request and no close.
   */
  lemma DisableSession(devId: int, opens: seq<int>, replies: seq<Reply>)
    ensures var run := DisableRun(devId, opens, replies);
            var e := run.events;
            var req := Requests(e);
            && CountOpened(e) <= SOCKET_OPEN_RETRY
            && (run.code == OpenDeviceError ==>
                  req == [] && CountClosed(e) == 0 && run.repliesLeft == replies
                  && (devId >= 0 ==> CountOpened(e) == SOCKET_OPEN_RETRY))
            && (run.code != OpenDeviceError ==>
                  var h := OpenDeviceRun(devId, opens).handle;
                  && h >= 0 && req == [Sent(h, SetAdvertiseEnable(0), NextReply(replies))]
                  && CountClosed(e) == 1 && |e| >= 2
                  && e[|e| - 2] == req[0] && e[|e| - 1] == Closed(h)
                  && run.repliesLeft == Rest(replies))
  {
    var run := DisableRun(devId, opens, replies);
    if devId >= 0 {
      var o := OpenDeviceRun(devId, opens);
      OpenDeviceAttempts(devId, opens);
      if o.handle >= 0 {
        var sends := [Sent(o.handle, SetAdvertiseEnable(0), NextReply(replies))];
        assert run.events == o.events + sends + [Closed(o.handle)];
        SessionTrace(o.events, sends, o.handle);
      }
    }
  }

  /**
   * How `disable_advertising` maps the reply to its one request to its
   * result code: a transport failure gives E_ADVERTISE_MODE_ERROR, a
   * non-zero status octet E_ADVERTISE_STATUS_ERROR, anything else success.
   */
  lemma DisableResultCode(devId: int, opens: seq<int>, replies: seq<Reply>)
    ensures var run := DisableRun(devId, opens, replies);
            var req := Requests(run.events);
            && (run.code == OpenDeviceError <==> req == [])
            && (run.code == AdvertiseModeError <==> req != [] && req[0].reply.result < 0)
            && (run.code == AdvertiseStatusError <==>
                  req != [] && req[0].reply.result >= 0 && req[0].reply.status != 0)
            && (run.code == WorkSuccessfully <==>
                  req != [] && req[0].reply.result >= 0 && req[0].reply.status == 0)
            && run.code != SendRequestTimeout
  {
    DisableSession(devId, opens, replies);
  }

  /**
   * The retry loop of `enable_advertising` and `disable_advertising`: at
   * most SOCKET_OPEN_RETRY opens, stopping at the first handle that is not
   * negative; the result is the last handle returned.
   */
  method OpenDevice(hci: Controller, devId: int) returns (handle: int)
    modifies hci
    ensures var o := OpenDeviceRun(devId, old(hci.openResults));
            handle == o.handle && hci.trace == old(hci.trace) + o.events
            && hci.openResults == o.opensLeft && hci.replies == old(hci.replies)
  {
    handle := 0;
    var retryTime: nat := SOCKET_OPEN_RETRY;
    ghost var all := OpenDeviceRun(devId, hci.openResults);
    ghost var script := hci.openResults;
    ghost var done: seq<Event> := [];
    assert done + all.events == all.events;
    while retryTime > 0
      invariant retryTime <= SOCKET_OPEN_RETRY
      invariant hci.trace == old(hci.trace) + done
      invariant hci.replies == old(hci.replies) && hci.openResults == script
      invariant var rest := RetryOpen(devId, script, retryTime, handle);
                all == OpenRun(done + rest.events, rest.handle, rest.opensLeft)
      decreases retryTime
    {
      RetryOpenTurn(devId, script, retryTime, handle, done, all);
      retryTime := retryTime - 1;
      handle := hci.Open(devId);
      script := Rest(script);
      done := done + [Opened(devId, handle)];
      if handle >= 0 {
        break;
      }
    }
  }

  /** `enable_advertising(dongle_device_id, interval, uuid, major, minor, rssi)`. */
  method EnableAdvertising(hci: Controller, dongleDeviceId: int, interval: int, uuid: string,
                           majorNumber: int, minorNumber: int, rssiValue: int)
    returns (code: ErrorCode)
    requires IsUuidText(uuid)
    modifies hci
    ensures var run := EnableRun(dongleDeviceId, interval, uuid, old(hci.openResults), old(hci.replies));
            code == run.code && hci.trace == old(hci.trace) + run.events
            && hci.openResults == run.opensLeft && hci.replies == run.repliesLeft
  {
    if dongleDeviceId < 0 {
      return OpenDeviceError;
    }
    ghost var before := hci.trace;
    ghost var opens := hci.openResults;
    ghost var replies := hci.replies;
    ghost var run := EnableRun(dongleDeviceId, interval, uuid, opens, replies);
    var handle := OpenDevice(hci, dongleDeviceId);
    if handle < 0 {
      return OpenDeviceError;
    }
    ghost var opening := hci.trace[|before|..];
    assert hci.trace == before + opening;

    var result, status := hci.Send(handle, ParametersCommand(interval));
    ghost var sent := opening + [Sent(handle, ParametersCommand(interval), Reply(result, status))];
    assert hci.trace == before + sent;
    if result < 0 {
      hci.Close(handle);
      assert run == Run(SendRequestTimeout, sent + [Closed(handle)], hci.openResults, hci.replies);
      assert hci.trace == before + (sent + [Closed(handle)]);
      return SendRequestTimeout;
    }

    result, status := hci.Send(handle, SetAdvertiseEnable(1));
    sent := sent + [Sent(handle, SetAdvertiseEnable(1), Reply(result, status))];
    assert hci.trace == before + sent;
    if result < 0 {
      hci.Close(handle);
      assert run == Run(SendRequestTimeout, sent + [Closed(handle)], hci.openResults, hci.replies);
      assert hci.trace == before + (sent + [Closed(handle)]);
      return SendRequestTimeout;
    }

    var length, data := BuildAdvertisingData(uuid);
    var dataCommand := SetAdvertisingData(length, data[..]);
    assert dataCommand == DataCommand(uuid);
    result, status := hci.Send(handle, dataCommand);
    hci.Close(handle);
    sent := sent + [Sent(handle, dataCommand, Reply(result, status)), Closed(handle)];
    assert hci.trace == before + sent;
    assert run.events == sent && run.opensLeft == hci.openResults && run.repliesLeft == hci.replies;
    if result < 0 {
      return SendRequestTimeout;
    }
    if status != 0 {
      return AdvertiseStatusError;
    }
    return WorkSuccessfully;
  }

  /** `disable_advertising(dongle_device_id)`. */
  method DisableAdvertising(hci: Controller, dongleDeviceId: int) returns (code: ErrorCode)
    modifies hci
    ensures var run := DisableRun(dongleDeviceId, old(hci.openResults), old(hci.replies));
            code == run.code && hci.trace == old(hci.trace) + run.events
            && hci.openResults == run.opensLeft && hci.replies == run.repliesLeft
  {
    if dongleDeviceId < 0 {
      return OpenDeviceError;
    }
    var handle := OpenDevice(hci, dongleDeviceId);
    if handle < 0 {
      return OpenDeviceError;
    }

    var result, status := hci.Send(handle, SetAdvertiseEnable(0));
    hci.Close(handle);
    if result < 0 {
      return AdvertiseModeError;
    }
    if status != 0 {
      return AdvertiseStatusError;
    }
    return WorkSuccessfully;
  }
}
