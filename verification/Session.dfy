/** Sending and receiving data messages in an encrypted conversation (data_message.go). */
module Session {
  import opened Wire
  import opened DhGroup
  import opened Crypto
  import opened Headers
  import opened Tlvs
  import opened KeyManagement
  import opened DataMessages

  datatype Setting = Setting(crypto: Primitives, group: Group, version: Version) {
    ghost predicate Valid() {
      crypto.Valid() && group.Valid()
    }
  }

  /** The part of a conversation that data messages use. */
  datatype Party = Party(encrypted: bool, tags: Tags, keys: Keys)

  datatype Sending = Refused | Sent(party: Party, msg: DataMsg, extra: bytes)

  /** genDataMsgWithFlag */
  function Send(e: Setting, p: Party, message: bytes, flag: byte, tlvs: seq<Tlv>): Sending
    requires e.Valid()
  {
    if !p.encrypted || p.keys.ourCurrent.None? then Refused else
    var sender, recipient := Dec(p.keys.ourKeyId), p.keys.theirKeyId;
    match DeriveKeys(e.crypto, e.group, p.keys, sender, recipient)
    case None => Refused
    case Some((k1, sk)) =>
      var (k2, n) := TakeCounter(k1, sender, recipient);
      var m := DataMsg(flag, sender, recipient, p.keys.ourCurrent.value.pub, n,
                       Encrypt(e.crypto, sk.sendingAes, n, Plain(message, tlvs)), [], k2.oldMacs);
      Sent(p.(keys := k2.(oldMacs := [])),
           Sign(e.crypto, sk.sendingMac, MessageHeader(e.version, TYPE_DATA, p.tags), m), sk.extra)
  }

  /** The bytes of a sent message, before encoding and fragmentation. */
  function OnWire(e: Setting, tags: Tags, m: DataMsg): bytes {
    MessageHeader(e.version, TYPE_DATA, tags) + Serialize(m)
  }

  datatype Outcome =
    | NotPrivate | BadMessage | Regressed | BadKeyId | BadMac
    | Accepted(received: DataMsg, plain: Plain, extra: bytes, rotated: bool)

  /** processDataMessageWithRawErrors, up to the handling of the TLV records. */
  function Process(e: Setting, p: Party, header: bytes, body: bytes, rnd: Option<nat>): (Party, Outcome)
    requires e.Valid()
  {
    if !p.encrypted then (p, NotPrivate) else
    match Deserialize(body)
    case None => (p, BadMessage)
    case Some(r) =>
      var m := r.msg;
      var (k1, newer) := CheckCounter(p.keys, m.recipientKeyId, m.senderKeyId, m.ctr);
      if !newer then (p.(keys := k1), Regressed) else
      match DeriveKeys(e.crypto, e.group, k1, m.recipientKeyId, m.senderKeyId)
      case None => (p.(keys := k1), BadKeyId)
      case Some((k2, sk)) =>
        if !CheckSign(e.crypto, sk.receivingMac, header, r) then (p.(keys := k2), BadMac) else
        var plain := Decrypt(e.crypto, sk.receivingAes, m.ctr, m.encrypted);
        var (k3, rotated) := RotateOurs(e.group, k2, m.recipientKeyId, rnd);
        var k4 := if rotated then RotateTheirs(k3, m.senderKeyId, m.y) else k3;
        (p.(keys := k4), Accepted(m, plain, sk.extra, rotated))
  }

  /** Receiving the bytes of a whole message: header, then body. */
  function Receive(e: Setting, p: Party, wire: bytes, rnd: Option<nat>): (Party, Outcome)
    requires e.Valid()
  {
    match ParseMessageHeader(e.version, p.tags, wire)
    case (t, Header(header, body)) => Process(e, p.(tags := t), header, body, rnd)
    case (t, _) => (p.(tags := t), BadMessage)
  }

  /** A message that is not addressed to this party, in version 3, changes nothing but a peer's tag that was
      not known yet. */
  lemma NotForUs(e: Setting, p: Party, s: Tags, m: DataMsg, rnd: Option<nat>)
    requires e.Valid() && e.version.V3? && !Addressed(s, p.tags)
    ensures Receive(e, p, OnWire(e, s, m), rnd)
            == (p.(tags := if p.tags.theirs == 0 then p.tags.(theirs := s.ours) else p.tags), BadMessage)
  {
    hide Process, Serialize, MessageHeader, ParseMessageHeader, Addressed;
    HeaderRoundTrip(e.version, TYPE_DATA, s, p.tags, Serialize(m));
    SplitsAfterHeader(e.version, TYPE_DATA, s, p.tags, Serialize(m));
  }

  // ------------------------------------------------------------ in place

  class Conversation {
    const setting: Setting
    const keys: KeyManagementContext
    var encrypted: bool
    var tags: Tags

    constructor (setting: Setting, tags: Tags)
      ensures Valid() && fresh(keys) && fresh(keys.counterHistory) && fresh(keys.macKeyHistory)
      ensures this.setting == setting && View() == Party(false, tags, Keys(0, 0, None, None, None, None, [], [], []))
    {
      this.setting, this.tags := setting, tags;
      encrypted := false;
      keys := new KeyManagementContext();
    }

    ghost predicate Valid()
      reads keys, keys.counterHistory, keys.counterHistory.counters
    {
      keys.Valid()
    }

    ghost function View(): Party
      reads this, keys, keys.counterHistory, keys.macKeyHistory
    {
      Party(encrypted, tags, keys.View())
    }

    method GenDataMsg(message: bytes, flag: byte, tlvs: seq<Tlv>) returns (ok: bool, m: DataMsg, extra: bytes)
      requires setting.Valid() && Valid()
      modifies keys, keys.counterHistory, keys.macKeyHistory, keys.counterHistory.counters
      ensures Valid()
      ensures ok <==> Send(setting, old(View()), message, flag, tlvs).Sent?
      ensures ok ==> Sent(View(), m, extra) == Send(setting, old(View()), message, flag, tlvs)
      ensures !ok ==> View() == old(View())
    {
      m := DataMsg(0, 0, 0, 0, 0, [], [], []);
      extra := [];
      if !encrypted || keys.ourCurrent.None? {
        return false, m, extra;
      }
      var sender, recipient, y := Dec(keys.ourKeyId), keys.theirKeyId, keys.ourCurrent.value.pub;
      var derived, sk := keys.CalculateDhSessionKeys(setting.crypto, setting.group, sender, recipient);
      if !derived {
        return false, m, extra;
      }
      var n := keys.NextCounter(sender, recipient);
      var secret := Encrypt(setting.crypto, sk.sendingAes, n, Plain(message, tlvs));
      var revealed := keys.RevealMacKeys();
      m := DataMsg(flag, sender, recipient, y, n, secret, [], revealed);
      m := Sign(setting.crypto, sk.sendingMac, MessageHeader(setting.version, TYPE_DATA, tags), m);
      return true, m, sk.extra;
    }

    method ProcessDataMessage(header: bytes, body: bytes, rnd: Option<nat>) returns (outcome: Outcome)
      requires setting.Valid() && Valid()
      modifies keys, keys.counterHistory, keys.macKeyHistory, keys.counterHistory.counters
      ensures Valid() && (View(), outcome) == Process(setting, old(View()), header, body, rnd)
    {
      hide CheckCounter, DeriveKeys, RotateOurs, RotateTheirs, Decrypt, Deserialize;
      if !encrypted {
        return NotPrivate;
      }
      var r := Deserialize(body);
      if r.None? {
        return BadMessage;
      }
      var m := r.value.msg;
      var newer := keys.CheckMessageCounter(m.recipientKeyId, m.senderKeyId, m.ctr);
      if !newer {
        return Regressed;
      }
      var derived, sk := keys.CalculateDhSessionKeys(setting.crypto, setting.group, m.recipientKeyId, m.senderKeyId);
      if !derived {
        return BadKeyId;
      }
      if !CheckSign(setting.crypto, sk.receivingMac, header, r.value) {
        return BadMac;
      }
      var plain := Decrypt(setting.crypto, sk.receivingAes, m.ctr, m.encrypted);
      var rotated := keys.RotateOurKeys(setting.group, m.recipientKeyId, rnd);
      if rotated {
        keys.RotateTheirKey(m.senderKeyId, m.y);
      }
      return Accepted(m, plain, sk.extra, rotated);
    }
  }
}
