// Handshake replies on the wire: written by the server (src/rpc/mod.rs:117-148), read by the client
// (src/transport/client.rs:92-112).

module Replies {
  import opened Errors
  import opened Primitives
  import opened Wire
  import opened Codec
  import opened Protocol
  import Adapter

  function StatusCode(status: HandshakeStatus): u16 {
    match status
    case Accepted => 0
    case Rejected => 1
    case NeedsAdapter => 2
  }

  function AdapterCode(adapter: Adapter.AdapterVariant): u16 {
    match adapter
    case Identity => 0
    case LinearProjection => 1
    case NormMatch => 2
  }

  /** The result the server fills in, without the card of the server. */
  method WriteReply(reply: HandshakeReply) returns (m: ReplyMessage)
    ensures m == ReplyMessageOf(reply)
  {
    m := ReplyMessage(0, Null, 0, Null);
    m := m.(assignedSession := To(reply.session));
    m := m.(rejectionReason := To(reply.reason));
    m := m.(status := StatusCode(reply.status));
    m := m.(adapterRequired := AdapterCode(reply.adapter));
  }

  function ReplyMessageOf(reply: HandshakeReply): ReplyMessage {
    ReplyMessage(StatusCode(reply.status), To(reply.session), AdapterCode(reply.adapter), To(reply.reason))
  }

  const UNKNOWN_REASON: Text := Ascii("unknown")

  /** The enumerants of the schema (schemas/aptp.capnp:5-15). */
  function StatusOf(code: u16): Option<HandshakeStatus> {
    match code
    case 0 => Some(Accepted)
    case 1 => Some(Rejected)
    case 2 => Some(NeedsAdapter)
    case _ => None
  }

  function AdapterOf(code: u16): Option<Adapter.AdapterVariant> {
    match code
    case 0 => Some(Adapter.Identity)
    case 1 => Some(Adapter.LinearProjection)
    case 2 => Some(Adapter.NormMatch)
    case _ => None
  }

  /** A reader of the whole result, by the schema. */
  function ReadReply(utf8: Text -> bool, m: ReplyMessage): Result<HandshakeReply> {
    var session :- TextOf(utf8, m.assignedSession);
    var reason :- TextOf(utf8, m.rejectionReason);
    match (StatusOf(m.status), AdapterOf(m.adapterRequired))
    case (Some(status), Some(adapter)) => Ok(HandshakeReply(status, session, adapter, reason))
    case _ => Err(AptpError.NotInSchema)
  }

  /** The written result reads back as the reply, field by field. */
  lemma ReplyRoundTrip(utf8: Text -> bool, reply: HandshakeReply)
    requires utf8(reply.session) && utf8(reply.reason)
    ensures ReadReply(utf8, ReplyMessageOf(reply)) == Ok(reply)
  {
  }

  /** What the client makes of a result: the session it is to use, or an error. A status that the schema
      does not know comes first, then the session text, and only then what the status says. */
  function Answer(utf8: Text -> bool, result: Pointer<ReplyMessage>): Result<Text> {
    var m :- Get(result, ReplyMessage(0, Null, 0, Null));
    var status := StatusOf(m.status);
    if status.None? then
      Err(Internal(BadStatus))
    else
      var session :- TextOf(utf8, m.assignedSession);
      if status.value == Rejected then
        var reason :- Get(m.rejectionReason, []);
        Err(AptpError.HandshakeRejected(if utf8(reason) then reason else UNKNOWN_REASON))
      else
        Ok(session)
  }

  /** The client takes over a session exactly if the server's reply is no rejection and its session text
      can be read, and then it is the session the server assigned; a rejection arrives with its reason. */
  lemma AnswerExactly(utf8: Text -> bool, reply: HandshakeReply)
    ensures var r := Answer(utf8, To(ReplyMessageOf(reply)));
            (r.Ok? <==> reply.status != Rejected && utf8(reply.session))
            && (r.Ok? ==> r.value == reply.session)
            && (reply.status == Rejected && utf8(reply.session) && utf8(reply.reason) ==>
                  r == Err(AptpError.HandshakeRejected(reply.reason)))
  {
  }

  /** Of all results the client accepts exactly those with a status other than a rejection and a readable
      session text, which it takes over; a result that is not there reads as an accepted one without a
      session text. */
  lemma AcceptsExactly(utf8: Text -> bool, result: Pointer<ReplyMessage>, id: Text)
    ensures Answer(utf8, result) == Ok(id)
       <==> match result
            case Null => id == [] && utf8([])
            case Malformed => false
            case To(m) => (m.status == 0 || m.status == 2) && ReadsText(utf8, m.assignedSession, id)
  {
  }

  // ----- the reason of a rejection

  /** The reason given for a version mismatch (src/rpc/handshake.rs:16-19). */
  function MismatchText(remote: u32, local: u32): Text {
    Ascii("version mismatch: remote=") + Decimal(remote) + Ascii(", local=") + Decimal(local)
  }

  function DigitValue(b: byte): Option<nat> {
    match b
    case 0x30 => Some(0)
    case 0x31 => Some(1)
    case 0x32 => Some(2)
    case 0x33 => Some(3)
    case 0x34 => Some(4)
    case 0x35 => Some(5)
    case 0x36 => Some(6)
    case 0x37 => Some(7)
    case 0x38 => Some(8)
    case 0x39 => Some(9)
    case _ => None
  }

  /** How many digits a text starts with. */
  function DigitCount(t: Text): (n: nat)
    ensures n <= |t|
  {
    if t == [] || DigitValue(t[0]).None? then 0 else 1 + DigitCount(t[1..])
  }

  /** The number that a run of digits stands for. */
  function Number(digits: Text): nat {
    if digits == [] then
      0
    else
      var last := DigitValue(digits[|digits| - 1]);
      Number(digits[..|digits| - 1]) * 10 + if last.Some? then last.value else 0
  }

  /** The versions a reason names: the number after "remote=" and the one after ", local=". */
  function NamedVersions(reason: Text): Option<(nat, nat)> {
    var from := |"version mismatch: remote="|;
    if |reason| < from then
      None
    else
      var n := DigitCount(reason[from..]);
      var next := from + n + |", local="|;
      if |reason| < next then None
      else Some((Number(reason[from..from + n]), Number(reason[next..])))
  }

  lemma DigitRoundTrip(d: nat)
    requires d < 10
    ensures DigitValue(DIGITS[d]) == Some(d)
  {
  }

  lemma {:induction false} NumberOfDecimal(n: nat)
    ensures Number(Decimal(n)) == n
  {
    DigitRoundTrip(n % 10);
    if n < 10 {
      assert Number([DIGITS[n]][..0]) == 0;
    } else {
      NumberOfDecimal(n / 10);
      var t := Decimal(n);
      assert t[..|t| - 1] == Decimal(n / 10);
    }
  }

  lemma {:induction false} DecimalIsDigits(n: nat)
    ensures forall i :: 0 <= i < |Decimal(n)| ==> DigitValue(Decimal(n)[i]).Some?
  {
    DigitRoundTrip(n % 10);
    if n >= 10 {
      DecimalIsDigits(n / 10);
    }
  }

  lemma {:induction false} DigitsEnd(digits: Text, rest: Text)
    requires forall i :: 0 <= i < |digits| ==> DigitValue(digits[i]).Some?
    requires rest != [] && DigitValue(rest[0]).None?
    ensures DigitCount(digits + rest) == |digits|
  {
    if digits != [] {
      assert (digits + rest)[1..] == digits[1..] + rest;
      DigitsEnd(digits[1..], rest);
    } else {
      assert digits + rest == rest;
    }
  }

  lemma CommaIsNoDigit()
    ensures DigitValue(Ascii(", local=")[0]).None?
  {
    assert ", local="[0] as int == 44;
  }

  /** The reason names the remote version and then the local one, so the client can tell both. */
  lemma MismatchNamesVersions(remote: u32, local: u32)
    ensures NamedVersions(MismatchText(remote, local)) == Some((remote, local))
  {
    var head, middle := Ascii("version mismatch: remote="), Ascii(", local=");
    var r, l := Decimal(remote), Decimal(local);
    var text := MismatchText(remote, local);
    var from := |head|;
    assert text[from..] == r + (middle + l);
    DecimalIsDigits(remote);
    CommaIsNoDigit();
    assert (middle + l)[0] == middle[0];
    DigitsEnd(r, middle + l);
    assert text[from..from + |r|] == r && text[from + |r| + |middle|..] == l;
    NumberOfDecimal(remote);
    NumberOfDecimal(local);
  }
}
