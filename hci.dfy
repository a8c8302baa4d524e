/**
 * The three BlueZ calls the control sequence of src/Tag.c makes —
 * `hci_open_dev`, `hci_send_req` and `hci_close_dev` — as a scripted
 * controller: each open returns the next scripted handle, each request
 * produces the next scripted reply, and every call is appended to a trace.
 * An exhausted script answers with failure (-1), as a missing device or a
 * dead link would.
 */
module Hci {
  import opened TagConstants

  /** Opcode group of the LE controller commands (Bluetooth Core Specification, Vol 4 Part E, section 7.8). */
  const OGF_LE_CTL: nat := 0x08

  /** The control requests the Tag sends. */
  datatype Command =
      /** LE Set Advertising Parameters (Vol 4 Part E, section 7.8.5). */
    | SetAdvertisingParameters(minInterval: nat, maxInterval: nat, advType: byte, chanMap: byte)
      /** LE Set Advertising Enable (Vol 4 Part E, section 7.8.9). */
    | SetAdvertiseEnable(enable: byte)
      /** LE Set Advertising Data (Vol 4 Part E, section 7.8.7): significant length and the 31 data octets. */
    | SetAdvertisingData(length: nat, data: seq<byte>)
  {
    /** The opcode command field of the request. */
    function Ocf(): (ocf: nat)
      ensures ocf < 0x400
    {
      match this
      case SetAdvertisingParameters(_, _, _, _) => 0x0006
      case SetAdvertisingData(_, _) => 0x0008
      case SetAdvertiseEnable(_) => 0x000A
    }

    /**
     * The 16-bit opcode the request travels under: the group field `ogf`
     * in the top 6 bits and the command field `ocf` in the low 10
     * (Vol 4 Part E, section 5.4.1).
     */
    function Opcode(): (op: nat)
      ensures op < 0x1_0000
      ensures op / 0x400 == OGF_LE_CTL && op % 0x400 == Ocf()
    {
      OGF_LE_CTL * 0x400 + Ocf()
    }
  }

  /** What `hci_send_req` produced: its return value and the status octet it stored. */
  datatype Reply = Reply(result: int, status: byte)

  /** One call into the controller, with what it returned. */
  datatype Event =
    | Opened(devId: int, handle: int)
    | Sent(handle: int, command: Command, reply: Reply)
    | Closed(handle: int)

  /** The handle the next open returns: the next scripted one, or -1 once the script is exhausted. */
  function NextOpen(opens: seq<int>): int
  {
    if opens == [] then -1 else opens[0]
  }

  /** The reply the next request gets: the next scripted one, or a transport failure once exhausted. */
  function NextReply(replies: seq<Reply>): Reply
  {
    if replies == [] then Reply(-1, 0) else replies[0]
  }

  /** A script with its first entry used up. */
  function Rest<T>(script: seq<T>): (r: seq<T>)
    ensures |r| == if script == [] then 0 else |script| - 1
  {
    if script == [] then [] else script[1..]
  }

  /** The scripted radio controller behind the BlueZ calls. */
  class Controller {
    /** Handles successive `hci_open_dev` calls return. */
    var openResults: seq<int>
    /** Replies successive `hci_send_req` calls produce. */
    var replies: seq<Reply>
    /** Every call made so far, oldest first. */
    var trace: seq<Event>

    constructor (openResults: seq<int>, replies: seq<Reply>)
      ensures this.openResults == openResults && this.replies == replies && trace == []
    {
      this.openResults := openResults;
      this.replies := replies;
      trace := [];
    }

    /** `hci_open_dev(devId)`. */
    method Open(devId: int) returns (handle: int)
      modifies this
      ensures handle == NextOpen(old(openResults))
      ensures openResults == Rest(old(openResults)) && replies == old(replies)
      ensures trace == old(trace) + [Opened(devId, handle)]
    {
      handle := NextOpen(openResults);
      openResults := Rest(openResults);
      trace := trace + [Opened(devId, handle)];
    }

    /** `hci_send_req(handle, &request, HCI_SEND_REQUEST_TIMEOUT_IN_MS)`. */
    method Send(handle: int, command: Command) returns (result: int, status: byte)
      modifies this
      ensures Reply(result, status) == NextReply(old(replies))
      ensures replies == Rest(old(replies)) && openResults == old(openResults)
      ensures trace == old(trace) + [Sent(handle, command, NextReply(old(replies)))]
    {
      var reply := NextReply(replies);
      result, status := reply.result, reply.status;
      replies := Rest(replies);
      trace := trace + [Sent(handle, command, reply)];
    }

    /** `hci_close_dev(handle)`. */
    method Close(handle: int)
      modifies this
      ensures openResults == old(openResults) && replies == old(replies)
      ensures trace == old(trace) + [Closed(handle)]
    {
      trace := trace + [Closed(handle)];
    }
  }
}
