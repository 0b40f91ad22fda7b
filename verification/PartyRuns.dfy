/** One party of a session, over every run, whatever bytes arrive and whatever is sent: no message is
    accepted twice, no MAC key is lost, and exactly when a counter repeats or a MAC key is revealed
    too early. */
module PartyRuns {
  import opened Wire
  import opened DhGroup
  import opened Crypto
  import opened Tlvs
  import opened KeyManagement
  import opened DataMessages
  import opened Session

  /** The key ids and the counter a message travels under, seen from this party. */
  datatype Stamp = Stamp(ourKeyId: uint32, theirKeyId: uint32, ctr: uint64) {
    ghost predicate SamePair(s: Stamp) {
      ourKeyId == s.ourKeyId && theirKeyId == s.theirKeyId
    }
  }

  /** A party with the history of its session so far. */
  datatype Node = Node(
    party: Party,
    accepted: seq<Stamp>,        // messages accepted, in order
    sent: seq<Stamp>,            // messages sent, in order
    added: multiset<MacUse>,     // every MAC key ever recorded
    retired: seq<MacUse>,        // every MAC key moved to the reveal list, in order
    revealed: seq<bytes>)        // every MAC key published in a sent message, in order

  datatype Action =
    | SendText(message: bytes, flag: byte, tlvs: seq<Tlv>)
    | ReceiveBytes(header: bytes, body: bytes, rnd: Option<nat>)

  // ------------------------------------------------------------ what a received message records and retires

  /** The context once session keys were derived for a received message, and the message. */
  ghost function Derived(e: Setting, p: Party, body: bytes): Option<(Keys, DataMsg)>
    requires e.Valid()
  {
    if !p.encrypted then None else
    match Deserialize(body)
    case None => None
    case Some(r) =>
      var (k1, newer) := CheckCounter(p.keys, r.msg.recipientKeyId, r.msg.senderKeyId, r.msg.ctr);
      if !newer then None else
      match DeriveKeys(e.crypto, e.group, k1, r.msg.recipientKeyId, r.msg.senderKeyId)
      case None => None
      case Some((k2, _)) => Some((k2, r.msg))
  }

  ghost function Recorded(k: Keys, k': Keys): multiset<MacUse> {
    multiset(k'.macs) - multiset(k.macs)
  }

  ghost function MovedOurs(k: Keys, m: DataMsg): seq<MacUse> {
    if m.recipientKeyId == k.ourKeyId then Picked(k.macs, OursAre(Dec(k.ourKeyId))) else []
  }

  ghost function MovedTheirs(k: Keys, m: DataMsg): seq<MacUse> {
    if m.senderKeyId == k.theirKeyId then Picked(k.macs, TheirsAre(Dec(k.theirKeyId))) else []
  }

  ghost function Moved(e: Setting, k: Keys, m: DataMsg, rnd: Option<nat>): seq<MacUse>
    requires e.Valid()
  {
    var (k', rotated) := RotateOurs(e.group, k, m.recipientKeyId, rnd);
    MovedOurs(k, m) + if rotated then MovedTheirs(k', m) else []
  }

  ghost function Step(e: Setting, n: Node, a: Action): Node
    requires e.Valid()
  {
    match a
    case SendText(message, flag, tlvs) =>
      (match Send(e, n.party, message, flag, tlvs)
       case Refused => n
       case Sent(p, m, _) =>
         n.(party := p, sent := n.sent + [Stamp(m.senderKeyId, m.recipientKeyId, m.ctr)],
            added := n.added + Recorded(n.party.keys, p.keys), revealed := n.revealed + m.oldMacKeys))
    case ReceiveBytes(header, body, rnd) =>
      var (p, out) := Process(e, n.party, header, body, rnd);
      var d := Derived(e, n.party, body);
      var n1 := if d.None? then n else n.(added := n.added + Recorded(n.party.keys, d.value.0));
      if !out.Accepted? then n1.(party := p) else
      n1.(party := p, accepted := n.accepted + [StampOf(out.received)],
          retired := n.retired + if d.None? then [] else Moved(e, d.value.0, d.value.1, rnd))
  }

  ghost function StampOf(m: DataMsg): Stamp {
    Stamp(m.recipientKeyId, m.senderKeyId, m.ctr)
  }

  ghost predicate IsRun(e: Setting, ns: seq<Node>, acts: seq<Action>)
    requires e.Valid()
  {
    && |ns| == |acts| + 1 && Starting(ns[0])
    && forall i {:trigger acts[i]} :: 0 <= i < |acts| ==> ns[i + 1] == Step(e, ns[i], acts[i])
  }

  lemma RunStep(e: Setting, ns: seq<Node>, acts: seq<Action>, i: nat)
    requires e.Valid() && IsRun(e, ns, acts) && 0 < i < |ns|
    ensures i - 1 < |acts| && ns[i] == Step(e, ns[i - 1], acts[i - 1])
  {
  }

  lemma RunStarts(e: Setting, ns: seq<Node>, acts: seq<Action>)
    requires e.Valid() && IsRun(e, ns, acts)
    ensures |ns| > 0 && Starting(ns[0])
  {
  }

  /** A session as the key exchange hands it over. */
  ghost predicate Starting(n: Node) {
    var k := n.party.keys;
    && n.accepted == [] && n.sent == [] && n.added == multiset{} && n.retired == [] && n.revealed == []
    && k.counters == [] && k.macs == [] && k.oldMacs == []
    && k.ourKeyId >= 2 && k.ourCurrent.Some? && k.ourPrevious.Some?
    && k.theirKeyId >= 1 && k.theirCurrent.Some? && k.theirPrevious.None?
  }

  // ------------------------------------------------------------ counters

  lemma ProcessCounters(e: Setting, p: Party, header: bytes, body: bytes, rnd: Option<nat>, o: uint32, t: uint32)
    requires e.Valid()
    ensures var (p', out) := Process(e, p, header, body, rnd);
            var c, c' := CounterOf(p.keys.counters, o, t), CounterOf(p'.keys.counters, o, t);
            && c'.ours == c.ours && c'.theirs >= c.theirs
            && (out.Accepted? && StampOf(out.received).ourKeyId == o && StampOf(out.received).theirKeyId == t
                ==> c.theirs < out.received.ctr == c'.theirs)
            && (UniquePairs(p.keys.counters) ==> UniquePairs(p'.keys.counters))
  {
    hide *;
    ProcessCounterHistory(e, p, header, body, rnd);
    if p.encrypted && Deserialize(body).Some? {
      var m := Deserialize(body).value.msg;
      CheckCounterFrame(p.keys, m.recipientKeyId, m.senderKeyId, m.ctr, o, t);
      StampFields(m);
    }
  }

  lemma StampFields(m: DataMsg)
    ensures StampOf(m) == Stamp(m.recipientKeyId, m.senderKeyId, m.ctr)
  {
  }

  /** Only the counter check touches the counters, and only messages that pass it are accepted. */
  lemma ProcessCounterHistory(e: Setting, p: Party, header: bytes, body: bytes, rnd: Option<nat>)
    requires e.Valid()
    ensures var (p', out) := Process(e, p, header, body, rnd);
            if p.encrypted && Deserialize(body).Some? then
              var m := Deserialize(body).value.msg;
              var (k, newer) := CheckCounter(p.keys, m.recipientKeyId, m.senderKeyId, m.ctr);
              p'.keys.counters == k.counters && (out.Accepted? ==> newer && out.received == m)
            else p' == p && !out.Accepted?
  {
    hide Deserialize, CheckCounter, Decrypt, CheckSign, SessionKeysFrom, PickOurs, PickTheirs, Remaining, Picked, KeysOf;
  }

  lemma CheckCounterFrame(k: Keys, recipient: uint32, sender: uint32, ctr: uint64, o: uint32, t: uint32)
    ensures var (k', newer) := CheckCounter(k, recipient, sender, ctr);
            var c, c' := CounterOf(k.counters, o, t), CounterOf(k'.counters, o, t);
            && c'.ours == c.ours && c'.theirs >= c.theirs
            && (newer && o == recipient && t == sender ==> c.theirs < ctr == c'.theirs)
            && (c'.theirs == c.theirs || (o == recipient && t == sender && c'.theirs == ctr))
            && (UniquePairs(k.counters) ==> UniquePairs(k'.counters))
  {
    var c := CounterOf(k.counters, recipient, sender);
    SetCounterFrame(k.counters, recipient, sender, c.ours, c.theirs, o, t);
    SetCounterFrame(k.counters, recipient, sender, c.ours, ctr, o, t);
    assert Counted(k.counters, recipient, sender) == SetCounter(k.counters, recipient, sender, c.ours, c.theirs);
  }

  /** The counter the next message for a pair will carry. */
  ghost function NextOf(k: Keys, o: uint32, t: uint32): uint64 {
    var c := CounterOf(k.counters, o, t);
    if c.ours == 0 then 1 else c.ours
  }

  lemma SendCounters(e: Setting, p: Party, message: bytes, flag: byte, tlvs: seq<Tlv>, o: uint32, t: uint32)
    requires e.Valid() && Send(e, p, message, flag, tlvs).Sent?
    ensures var s := Send(e, p, message, flag, tlvs);
            var k, k' := p.keys, s.party.keys;
            && CounterOf(k'.counters, o, t).theirs == CounterOf(k.counters, o, t).theirs
            && s.msg.ctr == NextOf(k, s.msg.senderKeyId, s.msg.recipientKeyId)
            && (o == s.msg.senderKeyId && t == s.msg.recipientKeyId
                ==> NextOf(k', o, t) == if s.msg.ctr < LONG_LIMIT - 1 then s.msg.ctr + 1 else 1)
            && (!(o == s.msg.senderKeyId && t == s.msg.recipientKeyId) ==> NextOf(k', o, t) == NextOf(k, o, t))
            && (UniquePairs(k.counters) ==> UniquePairs(k'.counters))
  {
    hide IndexOf, CounterOf, SetCounter, UniquePairs, Encrypt, SessionKeysFrom, SerializeUnsigned;
    var sender, recipient := Dec(p.keys.ourKeyId), p.keys.theirKeyId;
    var c := CounterOf(p.keys.counters, sender, recipient);
    var n := NextOf(p.keys, sender, recipient);
    SetCounterFrame(p.keys.counters, sender, recipient, (n + 1) % LONG_LIMIT, c.theirs, o, t);
  }

  /** Accepted counters strictly increase for each pair of key ids, and stay below the recorded one. */
  ghost predicate AcceptedIncrease(n: Node) {
    && (forall i :: 0 <= i < |n.accepted| ==>
          n.accepted[i].ctr <= CounterOf(n.party.keys.counters, n.accepted[i].ourKeyId, n.accepted[i].theirKeyId).theirs)
    && forall i, j :: 0 <= i < j < |n.accepted| && n.accepted[i].SamePair(n.accepted[j]) ==>
          n.accepted[i].ctr < n.accepted[j].ctr
  }

  lemma StepAcceptedIncrease(e: Setting, n: Node, a: Action)
    requires e.Valid() && AcceptedIncrease(n)
    ensures AcceptedIncrease(Step(e, n, a))
  {
    hide Process, Send, CounterOf, Derived, Moved;
    var n' := Step(e, n, a);
    match a
    case SendText(message, flag, tlvs) =>
      if Send(e, n.party, message, flag, tlvs).Sent? {
        forall s: Stamp
          ensures CounterOf(n'.party.keys.counters, s.ourKeyId, s.theirKeyId).theirs
                  == CounterOf(n.party.keys.counters, s.ourKeyId, s.theirKeyId).theirs
        {
          SendCounters(e, n.party, message, flag, tlvs, s.ourKeyId, s.theirKeyId);
        }
      }
    case ReceiveBytes(header, body, rnd) =>
      forall s: Stamp
        ensures var c, c' := CounterOf(n.party.keys.counters, s.ourKeyId, s.theirKeyId),
                             CounterOf(n'.party.keys.counters, s.ourKeyId, s.theirKeyId);
                c'.theirs >= c.theirs &&
                (Process(e, n.party, header, body, rnd).1.Accepted?
                 && s.SamePair(StampOf(Process(e, n.party, header, body, rnd).1.received))
                 ==> c.theirs < Process(e, n.party, header, body, rnd).1.received.ctr == c'.theirs)
      {
        ProcessCounters(e, n.party, header, body, rnd, s.ourKeyId, s.theirKeyId);
      }
  }

  lemma {:induction false} RunAcceptedIncrease(e: Setting, ns: seq<Node>, acts: seq<Action>, i: nat)
    requires e.Valid() && IsRun(e, ns, acts) && i < |ns|
    ensures AcceptedIncrease(ns[i])
  {
    hide *;
    if i == 0 {
      RunStarts(e, ns, acts);
      StartAcceptedIncrease(ns[0]);
    } else {
      RunStep(e, ns, acts, i);
      RunAcceptedIncrease(e, ns, acts, i - 1);
      StepAcceptedIncrease(e, ns[i - 1], acts[i - 1]);
    }
  }

  lemma StartAcceptedIncrease(n: Node)
    requires Starting(n)
    ensures AcceptedIncrease(n)
  {
  }

  ghost predicate Extends(n: Node, n': Node) {
    n.accepted <= n'.accepted && n.retired <= n'.retired
  }

  lemma {:induction false} AcceptedGrows(e: Setting, ns: seq<Node>, acts: seq<Action>, i: nat, j: nat)
    requires e.Valid() && IsRun(e, ns, acts) && i <= j < |ns|
    ensures Extends(ns[i], ns[j])
    decreases j - i
  {
    hide *;
    if i == j {
      ExtendsItself(ns[i]);
    } else {
      RunStep(e, ns, acts, j);
      AcceptedGrows(e, ns, acts, i, j - 1);
      StepGrows(e, ns[j - 1], acts[j - 1]);
      ExtendsTrans(ns[i], ns[j - 1], ns[j]);
    }
  }

  lemma ExtendsItself(n: Node)
    ensures Extends(n, n)
  {
  }

  lemma ExtendsTrans(n: Node, n1: Node, n2: Node)
    requires Extends(n, n1) && Extends(n1, n2)
    ensures Extends(n, n2)
  {
  }

  lemma StepGrows(e: Setting, n: Node, a: Action)
    requires e.Valid()
    ensures Extends(n, Step(e, n, a))
  {
    hide Process, Send, Derived, Moved;
  }

  ghost predicate AcceptsAt(e: Setting, ns: seq<Node>, acts: seq<Action>, i: nat)
    requires e.Valid()
  {
    && i < |acts| && i < |ns| && acts[i].ReceiveBytes?
    && Process(e, ns[i].party, acts[i].header, acts[i].body, acts[i].rnd).1.Accepted?
  }

  lemma AcceptedStamp(e: Setting, ns: seq<Node>, acts: seq<Action>, i: nat)
    requires e.Valid() && IsRun(e, ns, acts) && AcceptsAt(e, ns, acts, i)
    ensures Deserialize(acts[i].body).Some?
    ensures ns[i + 1].accepted == ns[i].accepted + [StampOf(Deserialize(acts[i].body).value.msg)]
  {
    hide Process, Derived, Moved, Deserialize, StampOf, CheckCounter;
    ProcessCounterHistory(e, ns[i].party, acts[i].header, acts[i].body, acts[i].rnd);
    assert ns[i + 1] == Step(e, ns[i], acts[i]);
  }

  /** No run accepts the same message bytes twice, whatever else arrives or is sent in between. */
  lemma NeverAcceptedTwice(e: Setting, ns: seq<Node>, acts: seq<Action>, i: nat, j: nat)
    requires e.Valid() && IsRun(e, ns, acts) && i < j
    requires AcceptsAt(e, ns, acts, i) && AcceptsAt(e, ns, acts, j)
    ensures acts[i].body != acts[j].body
  {
    hide *;
    AcceptsInside(e, ns, acts, i);
    AcceptsInside(e, ns, acts, j);
    AcceptedStamp(e, ns, acts, i);
    AcceptedStamp(e, ns, acts, j);
    AcceptedGrows(e, ns, acts, i + 1, j);
    RunAcceptedIncrease(e, ns, acts, j + 1);
    StampsDiffer(ns[i], ns[i + 1], ns[j], ns[j + 1], StampOf(Deserialize(acts[i].body).value.msg),
                 StampOf(Deserialize(acts[j].body).value.msg));
  }

  lemma AcceptsInside(e: Setting, ns: seq<Node>, acts: seq<Action>, i: nat)
    requires e.Valid() && IsRun(e, ns, acts) && AcceptsAt(e, ns, acts, i)
    ensures i < |acts| && |ns| == |acts| + 1 && acts[i].ReceiveBytes?
  {
    hide Process, Step;
  }

  lemma StampsDiffer(n0: Node, n1: Node, n2: Node, n3: Node, s: Stamp, t: Stamp)
    requires n1.accepted == n0.accepted + [s] && Extends(n1, n2) && n3.accepted == n2.accepted + [t]
    requires AcceptedIncrease(n3)
    ensures s != t
  {
    hide CounterOf;
    var k, l := |n0.accepted|, |n2.accepted|;
    assert n3.accepted[k] == n2.accepted[k] == n1.accepted[k] == s && n3.accepted[l] == t;
  }

  // ------------------------------------------------------------ counters of sent messages

  /** How often a pair of key ids was used. */
  ghost function Uses(sent: seq<Stamp>, o: uint32, t: uint32): nat {
    if sent == [] then 0 else
    var last := sent[|sent| - 1];
    Uses(sent[..|sent| - 1], o, t) + if last.ourKeyId == o && last.theirKeyId == t then 1 else 0
  }

  /** The counter after that many uses: 0 is skipped when the uint64 wraps. */
  ghost function Numbered(uses: nat): uint64 {
    1 + uses % (LONG_LIMIT - 1)
  }

  /** Each message carries the number of earlier uses of its pair, and so will the next one. */
  ghost predicate Numbers(n: Node) {
    && UniquePairs(n.party.keys.counters)
    && (forall o, t :: NextOf(n.party.keys, o, t) == Numbered(Uses(n.sent, o, t)))
    && forall i {:trigger n.sent[i]} :: 0 <= i < |n.sent| ==>
          n.sent[i].ctr == Numbered(Uses(n.sent[..i], n.sent[i].ourKeyId, n.sent[i].theirKeyId))
  }

  lemma NumberedNext(uses: nat)
    ensures Numbered(uses + 1) == if Numbered(uses) < LONG_LIMIT - 1 then Numbered(uses) + 1 else 1
  {
    var l := LONG_LIMIT - 1;
    if uses % l == l - 1 {
      assert (uses + 1) == l * (uses / l + 1);
    } else {
      assert (uses + 1) == l * (uses / l) + (uses % l + 1);
    }
  }

  lemma StepNumbers(e: Setting, n: Node, a: Action)
    requires e.Valid() && Numbers(n)
    ensures Numbers(Step(e, n, a))
  {
    hide Process, Send, CounterOf, Derived, Moved, UniquePairs, Numbered, Uses;
    var n' := Step(e, n, a);
    match a
    case SendText(message, flag, tlvs) =>
      if Send(e, n.party, message, flag, tlvs).Sent? {
        SendNumbers(e, n, message, flag, tlvs);
      }
    case ReceiveBytes(header, body, rnd) =>
      forall o, t
        ensures NextOf(n'.party.keys, o, t) == NextOf(n.party.keys, o, t)
      {
        ProcessCounters(e, n.party, header, body, rnd, o, t);
      }
      ProcessCounters(e, n.party, header, body, rnd, 0, 0);
  }

  lemma SendNumbers(e: Setting, n: Node, message: bytes, flag: byte, tlvs: seq<Tlv>)
    requires e.Valid() && Numbers(n) && Send(e, n.party, message, flag, tlvs).Sent?
    ensures Numbers(Step(e, n, SendText(message, flag, tlvs)))
  {
    hide Send, CounterOf, NextOf, UniquePairs, Numbered, Uses;
    var n' := Step(e, n, SendText(message, flag, tlvs));
    var m := Send(e, n.party, message, flag, tlvs).msg;
    var stamp := Stamp(m.senderKeyId, m.recipientKeyId, m.ctr);
    SendCounters(e, n.party, message, flag, tlvs, m.senderKeyId, m.recipientKeyId);
    forall o, t
      ensures NextOf(n'.party.keys, o, t) == Numbered(Uses(n'.sent, o, t))
    {
      SendCounters(e, n.party, message, flag, tlvs, o, t);
      UsesAppend(n.sent, stamp, o, t);
      NumberedNext(Uses(n.sent, o, t));
    }
    forall i | 0 <= i < |n'.sent|
      ensures n'.sent[i].ctr == Numbered(Uses(n'.sent[..i], n'.sent[i].ourKeyId, n'.sent[i].theirKeyId))
    {
      assert n'.sent[..i] == n.sent[..i];
      assert n.sent[..|n.sent|] == n.sent;
    }
  }

  lemma UsesAppend(sent: seq<Stamp>, s: Stamp, o: uint32, t: uint32)
    ensures Uses(sent + [s], o, t) == Uses(sent, o, t) + if s.ourKeyId == o && s.theirKeyId == t then 1 else 0
  {
    assert (sent + [s])[..|sent|] == sent;
  }

  lemma NextPositive(k: Keys, o: uint32, t: uint32)
    ensures NextOf(k, o, t) >= 1
  {
  }

  /** In every run the messages of each pair of key ids are numbered 1, 2, and so on round the
      uint64, and the history never holds two entries for one pair. */
  lemma {:induction false} CountersNumbered(e: Setting, ns: seq<Node>, acts: seq<Action>, i: nat)
    requires e.Valid() && IsRun(e, ns, acts) && i < |ns|
    ensures Numbers(ns[i])
  {
    hide *;
    if i == 0 {
      RunStarts(e, ns, acts);
      StartNumbers(ns[0]);
    } else {
      RunStep(e, ns, acts, i);
      CountersNumbered(e, ns, acts, i - 1);
      StepNumbers(e, ns[i - 1], acts[i - 1]);
    }
  }

  lemma StartNumbers(n: Node)
    requires Starting(n)
    ensures Numbers(n)
  {
  }

  lemma {:induction false} UsesGrow(sent: seq<Stamp>, o: uint32, t: uint32, i: nat, j: nat)
    requires i < j <= |sent|
    ensures Uses(sent[..i], o, t) + (if sent[i].ourKeyId == o && sent[i].theirKeyId == t then 1 else 0) <= Uses(sent[..j], o, t)
    decreases j
  {
    assert sent[..j][..j - 1] == sent[..j - 1];
    if i < j - 1 {
      UsesGrow(sent, o, t, i, j - 1);
    }
  }

  /** Some message of the pair was preceded by exactly k others. */
  lemma {:induction false} UseOf(sent: seq<Stamp>, o: uint32, t: uint32, k: nat) returns (i: nat)
    requires k < Uses(sent, o, t)
    ensures i < |sent| && sent[i].ourKeyId == o && sent[i].theirKeyId == t && Uses(sent[..i], o, t) == k
  {
    var init, last := sent[..|sent| - 1], sent[|sent| - 1];
    if k < Uses(init, o, t) {
      i := UseOf(init, o, t, k);
      assert init[..i] == sent[..i];
    } else {
      i := |sent| - 1;
    }
  }

  ghost predicate NoRepeats(sent: seq<Stamp>) {
    forall i, j :: 0 <= i < j < |sent| ==> sent[i] != sent[j]
  }

  /** No two messages of a run share sender key id, recipient key id and counter, exactly as long as
      no pair of key ids was used more than 2^64 - 1 times. */
  lemma CountersUnique(e: Setting, ns: seq<Node>, acts: seq<Action>, i: nat)
    requires e.Valid() && IsRun(e, ns, acts) && i < |ns|
    ensures NoRepeats(ns[i].sent) <==> forall o, t :: Uses(ns[i].sent, o, t) <= LONG_LIMIT - 1
  {
    CountersNumbered(e, ns, acts, i);
    hide IsRun, Uses, Numbered, UniquePairs, NextOf;
    var n := ns[i];
    if o, t :| Uses(n.sent, o, t) > LONG_LIMIT - 1 {
      CounterWraps(n, o, t);
    } else {
      forall k, l | 0 <= k < l < |n.sent|
        ensures n.sent[k] != n.sent[l]
      {
        FewUsesDiffer(n, k, l);
      }
    }
  }

  lemma FewUsesDiffer(n: Node, k: nat, l: nat)
    requires Numbers(n) && k < l < |n.sent| && Uses(n.sent, n.sent[l].ourKeyId, n.sent[l].theirKeyId) <= LONG_LIMIT - 1
    ensures n.sent[k] != n.sent[l]
  {
    hide Uses, UniquePairs, NextOf;
    var o, t := n.sent[l].ourKeyId, n.sent[l].theirKeyId;
    UsesGrow(n.sent, o, t, k, l);
    UsesGrow(n.sent, o, t, l, |n.sent|);
    assert n.sent[..|n.sent|] == n.sent;
  }

  /** The first message of a pair and the one after 2^64 - 1 more carry the same stamp. */
  lemma CounterWraps(n: Node, o: uint32, t: uint32)
    requires Numbers(n) && Uses(n.sent, o, t) > LONG_LIMIT - 1
    ensures !NoRepeats(n.sent)
    ensures exists k, l :: 0 <= k < l < |n.sent| && n.sent[k] == n.sent[l] && n.sent[k].ourKeyId == o && n.sent[k].theirKeyId == t
  {
    hide Uses, UniquePairs, NextOf;
    var k := UseOf(n.sent, o, t, 0);
    var l := UseOf(n.sent, o, t, LONG_LIMIT - 1);
    assert n.sent[k] == n.sent[l];
    if l < k {
      UsesGrow(n.sent, o, t, l, k);
    }
  }

  /** No two messages of a pair of key ids start at the same counter block. */
  ghost predicate NoBlockRepeats(sent: seq<Stamp>) {
    forall i, j :: 0 <= i < j < |sent| && sent[i].SamePair(sent[j]) ==> Iv(sent[i].ctr) != Iv(sent[j].ctr)
  }

  /** Over every run that holds exactly as long as no pair was used more than 2^64 - 1 times. */
  lemma BlocksUnique(e: Setting, ns: seq<Node>, acts: seq<Action>, i: nat)
    requires e.Valid() && IsRun(e, ns, acts) && i < |ns|
    ensures NoBlockRepeats(ns[i].sent) <==> forall o, t :: Uses(ns[i].sent, o, t) <= LONG_LIMIT - 1
  {
    hide IsRun, Uses, Iv;
    CountersUnique(e, ns, acts, i);
    BlocksAreStamps(ns[i].sent);
  }

  lemma BlocksAreStamps(sent: seq<Stamp>)
    ensures NoBlockRepeats(sent) <==> NoRepeats(sent)
  {
    hide Iv;
    forall i, j | 0 <= i < j < |sent|
      ensures sent[i].SamePair(sent[j]) && Iv(sent[i].ctr) == Iv(sent[j].ctr) <==> sent[i] == sent[j]
    {
      IvCarriesCounter(sent[i].ctr, sent[j].ctr);
    }
  }

  /** And each message is enciphered from the block of the counter it carries, under the keys its ids
      select. */
  lemma SentUnderItsCounter(e: Setting, p: Party, message: bytes, flag: byte, tlvs: seq<Tlv>)
    requires e.Valid() && Send(e, p, message, flag, tlvs).Sent?
    ensures var m := Send(e, p, message, flag, tlvs).msg;
            var ours, theirs := PickOurs(p.keys, m.senderKeyId), PickTheirs(p.keys, m.recipientKeyId);
            && ours.Some? && theirs.Some?
            && var key := SessionKeysFrom(e.crypto, e.group, ours.value.priv, ours.value.pub, theirs.value).sendingAes;
               Xor(m.encrypted, e.crypto.keystream(key, Iv(m.ctr), |m.encrypted|)) == SerializePlain(Pad(Plain(message, tlvs)))
  {
    hide CounterOf, SetCounter, Encrypt, SessionKeysFrom, SerializeUnsigned, PickOurs, PickTheirs, SerializePlain, Pad, Iv;
    var sender, recipient := Dec(p.keys.ourKeyId), p.keys.theirKeyId;
    var d := DeriveKeys(e.crypto, e.group, p.keys, sender, recipient);
    EncryptsUnder(e.crypto, d.value.1.sendingAes, Send(e, p, message, flag, tlvs).msg.ctr, Plain(message, tlvs));
  }

  // ------------------------------------------------------------ MAC keys are conserved

  /** Every recorded MAC key is in exactly one place: still in the history, or retired; and the
      retired ones are, in order, those already published followed by those waiting to be. */
  ghost predicate MacsConserved(n: Node) {
    && n.added == multiset(n.party.keys.macs) + multiset(n.retired)
    && KeysOf(n.retired) == n.revealed + n.party.keys.oldMacs
  }

  /** Both rotations at once, as an accepted message performs them. */
  ghost function Rotated(e: Setting, k: Keys, m: DataMsg, rnd: Option<nat>): Keys
    requires e.Valid()
  {
    var (k', rotated) := RotateOurs(e.group, k, m.recipientKeyId, rnd);
    if rotated then RotateTheirs(k', m.senderKeyId, m.y) else k'
  }

  /** The key that authenticates what the peer sends under these ids. */
  ghost function ReceivingMac(e: Setting, k: Keys, o: uint32, t: uint32): bytes
    requires e.Valid() && PickOurs(k, o).Some? && PickTheirs(k, t).Some?
  {
    var own := PickOurs(k, o).value;
    SessionKeysFrom(e.crypto, e.group, own.priv, own.pub, PickTheirs(k, t).value).receivingMac
  }

  /** Process in terms of Derived: an unaccepted message changes no MAC key beyond the recording. */
  lemma ProcessMacs(e: Setting, p: Party, header: bytes, body: bytes, rnd: Option<nat>)
    requires e.Valid()
    ensures var (p', out), d := Process(e, p, header, body, rnd), Derived(e, p, body);
            && (out.Accepted? ==> d.Some? && p'.keys == Rotated(e, d.value.0, d.value.1, rnd))
            && (!out.Accepted? ==>
                  var k := if d.Some? then d.value.0 else p.keys;
                  && p'.keys.macs == k.macs && p'.keys.oldMacs == k.oldMacs
                  && SameSlots(p'.keys, p.keys))
            && (d.Some? ==> && |d.value.0.macs| == |p.keys.macs| + 1 && p.keys.macs < d.value.0.macs
                            && d.value.0.oldMacs == p.keys.oldMacs && SameSlots(d.value.0, p.keys)
                            && var u := d.value.0.macs[|p.keys.macs|];
                               && u.ourKeyId == d.value.1.recipientKeyId
                               && PickOurs(p.keys, u.ourKeyId).Some? && PickTheirs(p.keys, u.theirKeyId).Some?
                               && u.key == ReceivingMac(e, p.keys, u.ourKeyId, u.theirKeyId))
  {
    hide Deserialize, CounterOf, SetCounter, Counted, Decrypt, CheckSign, SessionKeysFrom, RotateOurs, RotateTheirs;
    hide PickOurs, PickTheirs;
    var r := Deserialize(body);
    if p.encrypted && r.Some? {
      var (k1, newer) := CheckCounter(p.keys, r.value.msg.recipientKeyId, r.value.msg.senderKeyId, r.value.msg.ctr);
      PicksIgnoreCounters(p.keys, k1, r.value.msg.recipientKeyId, r.value.msg.senderKeyId);
    }
  }

  ghost predicate SameSlots(k: Keys, k': Keys) {
    && k.ourKeyId == k'.ourKeyId && k.theirKeyId == k'.theirKeyId
    && k.ourCurrent == k'.ourCurrent && k.ourPrevious == k'.ourPrevious
    && k.theirCurrent == k'.theirCurrent && k.theirPrevious == k'.theirPrevious
  }

  lemma PicksIgnoreCounters(k: Keys, k': Keys, o: uint32, t: uint32)
    requires SameSlots(k, k')
    ensures PickOurs(k, o) == PickOurs(k', o) && PickTheirs(k, t) == PickTheirs(k', t)
  {
  }

  lemma KeysOfAppend(a: seq<MacUse>, b: seq<MacUse>)
    ensures KeysOf(a + b) == KeysOf(a) + KeysOf(b)
  {
  }

  ghost predicate Conserves(k: Keys, k': Keys, moved: seq<MacUse>) {
    multiset(k.macs) == multiset(k'.macs) + multiset(moved) && k'.oldMacs == k.oldMacs + KeysOf(moved)
  }

  lemma OursConserve(e: Setting, k: Keys, m: DataMsg, rnd: Option<nat>)
    requires e.Valid()
    ensures Conserves(k, RotateOurs(e.group, k, m.recipientKeyId, rnd).0, MovedOurs(k, m))
  {
    hide Remaining, Picked, KeysOf, Group.Exp;
    RemainingCorrect(k.macs, OursAre(Dec(k.ourKeyId)));
    EmptyKeys();
    assert k.oldMacs + [] == k.oldMacs;
  }

  lemma TheirsConserve(k: Keys, m: DataMsg)
    ensures Conserves(k, RotateTheirs(k, m.senderKeyId, m.y), MovedTheirs(k, m))
  {
    hide Remaining, Picked, KeysOf;
    RemainingCorrect(k.macs, TheirsAre(Dec(k.theirKeyId)));
    EmptyKeys();
    assert k.oldMacs + [] == k.oldMacs;
  }

  lemma ConservesTrans(k: Keys, k1: Keys, k2: Keys, m1: seq<MacUse>, m2: seq<MacUse>)
    requires Conserves(k, k1, m1) && Conserves(k1, k2, m2)
    ensures Conserves(k, k2, m1 + m2)
  {
  }

  lemma RotationConserves(e: Setting, k: Keys, m: DataMsg, rnd: Option<nat>)
    requires e.Valid()
    ensures Conserves(k, Rotated(e, k, m, rnd), Moved(e, k, m, rnd))
  {
    hide Conserves, RotateOurs, RotateTheirs, MovedOurs, MovedTheirs;
    var (k', rotated) := RotateOurs(e.group, k, m.recipientKeyId, rnd);
    OursConserve(e, k, m, rnd);
    if rotated {
      TheirsConserve(k', m);
      ConservesTrans(k, k', Rotated(e, k, m, rnd), MovedOurs(k, m), MovedTheirs(k', m));
    } else {
      assert MovedOurs(k, m) + [] == MovedOurs(k, m);
    }
  }

  lemma EmptyKeys()
    ensures KeysOf([]) == []
  {
  }

  lemma SendMacs(e: Setting, p: Party, message: bytes, flag: byte, tlvs: seq<Tlv>)
    requires e.Valid() && Send(e, p, message, flag, tlvs).Sent?
    ensures var s := Send(e, p, message, flag, tlvs);
            && s.party.keys.oldMacs == [] && s.msg.oldMacKeys == p.keys.oldMacs
            && |s.party.keys.macs| == |p.keys.macs| + 1 && p.keys.macs < s.party.keys.macs
            && SameSlots(s.party.keys, p.keys)
            && var u := s.party.keys.macs[|p.keys.macs|];
               && PickOurs(p.keys, u.ourKeyId).Some? && PickTheirs(p.keys, u.theirKeyId).Some?
               && u.key == ReceivingMac(e, p.keys, u.ourKeyId, u.theirKeyId)
  {
    hide CounterOf, SetCounter, Encrypt, SessionKeysFrom, SerializeUnsigned, PickOurs, PickTheirs;
  }

  lemma RecordedOne(k: Keys, k': Keys)
    requires |k'.macs| == |k.macs| + 1 && k.macs < k'.macs
    ensures multiset(k.macs) + Recorded(k, k') == multiset(k'.macs)
  {
    assert k'.macs == k.macs + [k'.macs[|k.macs|]];
  }

  lemma StepMacsConserved(e: Setting, n: Node, a: Action)
    requires e.Valid() && MacsConserved(n)
    ensures MacsConserved(Step(e, n, a))
  {
    hide Send, Process, Derived, Moved, Recorded, Rotated, KeysOf, SameSlots;
    var n' := Step(e, n, a);
    match a
    case SendText(message, flag, tlvs) =>
      if Send(e, n.party, message, flag, tlvs).Sent? {
        SendMacs(e, n.party, message, flag, tlvs);
        RecordedOne(n.party.keys, n'.party.keys);
        assert n.revealed + n.party.keys.oldMacs + [] == n.revealed + n.party.keys.oldMacs;
      }
    case ReceiveBytes(header, body, rnd) =>
      ReceiveMacsConserved(e, n, header, body, rnd);
  }

  lemma ReceiveMacsConserved(e: Setting, n: Node, header: bytes, body: bytes, rnd: Option<nat>)
    requires e.Valid() && MacsConserved(n)
    ensures MacsConserved(Step(e, n, ReceiveBytes(header, body, rnd)))
  {
    hide Process, Derived, Moved, Recorded, Rotated, KeysOf, SameSlots;
    var n' := Step(e, n, ReceiveBytes(header, body, rnd));
    ProcessMacs(e, n.party, header, body, rnd);
    var d := Derived(e, n.party, body);
    if d.Some? {
      var k := d.value.0;
      RecordedOne(n.party.keys, k);
      if Process(e, n.party, header, body, rnd).1.Accepted? {
        var moved := Moved(e, k, d.value.1, rnd);
        RotationConserves(e, k, d.value.1, rnd);
        ConservedAfter(n, k, n'.party.keys, moved);
      }
    }
  }

  lemma SumsRegroup<T>(added: multiset<T>, macs: multiset<T>, retired: multiset<T>, rec: multiset<T>,
                       k: multiset<T>, k': multiset<T>, moved: multiset<T>)
    requires added == macs + retired && macs + rec == k && k == k' + moved
    ensures added + rec == k' + (retired + moved)
  {
    assert added + rec == (macs + rec) + retired;
  }

  lemma ConservedAfter(n: Node, k: Keys, k': Keys, moved: seq<MacUse>)
    requires MacsConserved(n) && k.oldMacs == n.party.keys.oldMacs && Conserves(k, k', moved)
    requires multiset(n.party.keys.macs) + Recorded(n.party.keys, k) == multiset(k.macs)
    ensures n.added + Recorded(n.party.keys, k) == multiset(k'.macs) + multiset(n.retired + moved)
    ensures KeysOf(n.retired + moved) == n.revealed + k'.oldMacs
  {
    KeysOfAppend(n.retired, moved);
    hide KeysOf, Recorded;
    assert multiset(n.retired + moved) == multiset(n.retired) + multiset(moved);
    SumsRegroup(n.added, multiset(n.party.keys.macs), multiset(n.retired), Recorded(n.party.keys, k),
                multiset(k.macs), multiset(k'.macs), multiset(moved));
    assert n.revealed + (k.oldMacs + KeysOf(moved)) == n.revealed + k.oldMacs + KeysOf(moved);
  }

  /** Each step records at most one key, and that is the receiving MAC key of a pair of ids that can be
      selected. */
  lemma RecordsReceivingKey(e: Setting, n: Node, a: Action)
    requires e.Valid()
    ensures var added, k := Step(e, n, a).added, n.party.keys;
            || added == n.added
            || exists o: uint32, t: uint32 ::
                 PickOurs(k, o).Some? && PickTheirs(k, t).Some? && added == n.added + multiset{MacUse(o, t, ReceivingMac(e, k, o, t))}
  {
    hide Send, Process, Derived, Moved, ReceivingMac, PickOurs, PickTheirs, Rotated, SameSlots;
    match a
    case SendText(message, flag, tlvs) =>
      if Send(e, n.party, message, flag, tlvs).Sent? {
        SendMacs(e, n.party, message, flag, tlvs);
        OneRecorded(n.party.keys, Send(e, n.party, message, flag, tlvs).party.keys);
      }
    case ReceiveBytes(header, body, rnd) =>
      ProcessMacs(e, n.party, header, body, rnd);
      var d := Derived(e, n.party, body);
      if d.Some? {
        OneRecorded(n.party.keys, d.value.0);
      }
  }

  lemma OneRecorded(k: Keys, k': Keys)
    requires |k'.macs| == |k.macs| + 1 && k.macs < k'.macs
    ensures var u := k'.macs[|k.macs|]; Recorded(k, k') == multiset{u} && u == MacUse(u.ourKeyId, u.theirKeyId, u.key)
  {
    assert k'.macs == k.macs + [k'.macs[|k.macs|]];
  }

  lemma {:induction false} RunMacsConserved(e: Setting, ns: seq<Node>, acts: seq<Action>, i: nat)
    requires e.Valid() && IsRun(e, ns, acts) && i < |ns|
    ensures MacsConserved(ns[i])
  {
    hide *;
    if i == 0 {
      RunStarts(e, ns, acts);
      StartMacsConserved(ns[0]);
    } else {
      RunStep(e, ns, acts, i);
      RunMacsConserved(e, ns, acts, i - 1);
      StepMacsConserved(e, ns[i - 1], acts[i - 1]);
    }
  }

  lemma StartMacsConserved(n: Node)
    requires Starting(n)
    ensures MacsConserved(n)
  {
  }

  // ------------------------------------------------------------ MAC keys are revealed only when dead

  /** Messages under this pair of key ids could still be sent or accepted. */
  ghost predicate Selectable(k: Keys, u: MacUse) {
    PickOurs(k, u.ourKeyId).Some? && PickTheirs(k, u.theirKeyId).Some?
  }

  ghost predicate Live(k: Keys) {
    k.ourKeyId >= 2 && k.ourCurrent.Some? && k.ourPrevious.Some? && k.theirKeyId >= 1 && k.theirCurrent.Some?
  }

  ghost predicate Past(k: Keys, u: MacUse) {
    u.ourKeyId < k.ourKeyId - 1 || u.theirKeyId < k.theirKeyId - 1
  }

  ghost predicate MacLifecycle(n: Node) {
    var k := n.party.keys;
    && Live(k)
    && (forall u <- k.macs :: Selectable(k, u))
    && (forall u <- n.retired :: Past(k, u))
  }

  /** Our keys should rotate, the random read fails, and MAC keys of the older pair are on record. */
  ghost predicate EarlyReveal(k: Keys, m: DataMsg, rnd: Option<nat>) {
    rnd.None? && m.recipientKeyId == k.ourKeyId && exists u <- k.macs :: u.ourKeyId == Dec(k.ourKeyId)
  }

  /** A rotation takes a key id round to 0. */
  ghost predicate IdWraps(k: Keys, m: DataMsg, rnd: Option<nat>) {
    && (rnd.Some? || m.recipientKeyId != k.ourKeyId)
    && (m.recipientKeyId == k.ourKeyId == WORD_LIMIT - 1 || m.senderKeyId == k.theirKeyId == WORD_LIMIT - 1)
  }

  /** What decides acceptance: the message parses, its counter is newer, both its key ids can be
      selected, and its MAC is right under the selected keys. */
  ghost predicate Acceptable(e: Setting, p: Party, header: bytes, body: bytes)
    requires e.Valid()
  {
    && p.encrypted && Deserialize(body).Some?
    && var r := Deserialize(body).value;
       var ours, theirs := PickOurs(p.keys, r.msg.recipientKeyId), PickTheirs(p.keys, r.msg.senderKeyId);
       && r.msg.ctr > CounterOf(p.keys.counters, r.msg.recipientKeyId, r.msg.senderKeyId).theirs
       && ours.Some? && theirs.Some?
       && CheckSign(e.crypto, SessionKeysFrom(e.crypto, e.group, ours.value.priv, ours.value.pub, theirs.value).receivingMac, header, r)
  }

  lemma AcceptedExactly(e: Setting, p: Party, header: bytes, body: bytes, rnd: Option<nat>)
    requires e.Valid()
    ensures Process(e, p, header, body, rnd).1.Accepted? <==> Acceptable(e, p, header, body)
    ensures Derived(e, p, body).Some? ==> Deserialize(body).Some? && Derived(e, p, body).value.1 == Deserialize(body).value.msg
  {
    hide Process, CheckSign, SessionKeysFrom, Deserialize, CounterOf, PickOurs, PickTheirs, CheckCounter, DeriveKeys, Decrypt;
    if p.encrypted && Deserialize(body).Some? {
      ProcessOutcome(e, p, header, body, rnd, Deserialize(body).value);
    } else {
      ProcessCounterHistory(e, p, header, body, rnd);
    }
  }

  /** The step receives an acceptable message on which one of the two happens. */
  ghost predicate Breaks(e: Setting, n: Node, a: Action)
    requires e.Valid()
  {
    && a.ReceiveBytes? && Acceptable(e, n.party, a.header, a.body)
    && var m := Deserialize(a.body).value.msg;
       EarlyReveal(n.party.keys, m, a.rnd) || IdWraps(n.party.keys, m, a.rnd)
  }

  lemma PastNotSelectable(k: Keys, u: MacUse)
    requires Live(k) && Past(k, u)
    ensures !Selectable(k, u)
  {
  }

  lemma SelectableSlots(k: Keys, k': Keys, u: MacUse)
    requires SameSlots(k, k')
    ensures Selectable(k, u) == Selectable(k', u) && Past(k, u) == Past(k', u) && Live(k) == Live(k')
  {
  }

  lemma OursRotated(e: Setting, k: Keys, x: nat)
    requires e.Valid() && Live(k) && k.ourKeyId < WORD_LIMIT - 1
    ensures var k' := RotateOurs(e.group, k, k.ourKeyId, Some(x)).0;
            && k'.ourKeyId == k.ourKeyId + 1 && Dec(k'.ourKeyId) == k.ourKeyId && Dec(k.ourKeyId) == k.ourKeyId - 1
            && k'.ourCurrent.Some? && k'.ourPrevious == k.ourCurrent && k'.theirKeyId == k.theirKeyId
            && k'.theirCurrent == k.theirCurrent && k'.theirPrevious == k.theirPrevious
            && k'.macs == Remaining(k.macs, OursAre(Dec(k.ourKeyId)))
  {
    hide Remaining, Picked, KeysOf, Group.Exp;
  }

  /** What a rotation of our keys does to the pairs of ids. */
  lemma OursShift(e: Setting, k: Keys, x: nat)
    requires e.Valid() && Live(k) && k.ourKeyId < WORD_LIMIT - 1
    ensures var k' := RotateOurs(e.group, k, k.ourKeyId, Some(x)).0;
            && Live(k') && k'.theirKeyId == k.theirKeyId && k.ourKeyId <= k'.ourKeyId
            && k'.macs == Remaining(k.macs, OursAre(Dec(k.ourKeyId)))
            && (forall u :: Selectable(k, u) && u.ourKeyId != Dec(k.ourKeyId) ==> Selectable(k', u))
            && (forall u: MacUse :: u.ourKeyId == Dec(k.ourKeyId) || Past(k, u) ==> Past(k', u))
  {
    hide Remaining, RotateOurs, Dec;
    OursRotated(e, k, x);
  }

  lemma TheirsShift(k: Keys, y: nat)
    requires Live(k) && k.theirKeyId < WORD_LIMIT - 1
    ensures var k' := RotateTheirs(k, k.theirKeyId, y);
            && Live(k') && k'.ourKeyId == k.ourKeyId && k.theirKeyId <= k'.theirKeyId
            && k'.macs == Remaining(k.macs, TheirsAre(Dec(k.theirKeyId)))
            && (forall u :: Selectable(k, u) && u.theirKeyId != Dec(k.theirKeyId) ==> Selectable(k', u))
            && (forall u: MacUse :: u.theirKeyId == Dec(k.theirKeyId) || Past(k, u) ==> Past(k', u))
  {
    hide Remaining, Picked, KeysOf;
  }

  /** Keys that stay come from the old history and do not have the id that goes. */
  lemma RemainingFrom(macs: seq<MacUse>, gone: MacUse -> bool)
    ensures forall u <- Remaining(macs, gone) :: u in macs && !gone(u)
    ensures forall u <- Picked(macs, gone) :: u in macs && gone(u)
  {
    hide Remaining, Picked;
    RemainingCorrect(macs, gone);
    PickedCorrect(macs, gone);
    forall u <- Remaining(macs, gone)
      ensures u in macs
    {
      assert u in multiset(macs);
    }
  }

  lemma FailedShift(e: Setting, k: Keys)
    requires e.Valid() && Live(k)
    ensures var k' := RotateOurs(e.group, k, k.ourKeyId, None).0;
            && Live(k') && SameSlots(k', k) && k'.macs == Remaining(k.macs, OursAre(Dec(k.ourKeyId)))
            && forall u :: Selectable(k, u) == Selectable(k', u) && Past(k, u) == Past(k', u)
  {
    hide Remaining, Picked, KeysOf;
  }

  lemma RotateOursLifecycle(e: Setting, k: Keys, m: DataMsg, rnd: Option<nat>)
    requires e.Valid() && Live(k) && (forall u <- k.macs :: Selectable(k, u)) && !EarlyReveal(k, m, rnd)
    requires rnd.Some? && m.recipientKeyId == k.ourKeyId ==> k.ourKeyId < WORD_LIMIT - 1
    ensures var k' := RotateOurs(e.group, k, m.recipientKeyId, rnd).0;
            && Live(k') && k'.theirKeyId == k.theirKeyId && k.ourKeyId <= k'.ourKeyId
            && (forall u <- k'.macs :: Selectable(k', u))
            && (forall u <- MovedOurs(k, m) :: Past(k', u))
            && (forall u :: Past(k, u) ==> Past(k', u))
  {
    if m.recipientKeyId == k.ourKeyId {
      hide Remaining, Picked, Live, Selectable, Past, RotateOurs, Dec;
      RemainingFrom(k.macs, OursAre(Dec(k.ourKeyId)));
      if rnd.Some? {
        OursShift(e, k, rnd.value);
      } else {
        FailedShift(e, k);
      }
    }
  }

  lemma RotateTheirsLifecycle(k: Keys, m: DataMsg)
    requires Live(k) && (forall u <- k.macs :: Selectable(k, u))
    requires m.senderKeyId == k.theirKeyId ==> k.theirKeyId < WORD_LIMIT - 1
    ensures var k' := RotateTheirs(k, m.senderKeyId, m.y);
            && Live(k') && k'.ourKeyId == k.ourKeyId && k.theirKeyId <= k'.theirKeyId
            && (forall u <- k'.macs :: Selectable(k', u))
            && (forall u <- MovedTheirs(k, m) :: Past(k', u))
            && (forall u :: Past(k, u) ==> Past(k', u))
  {
    if m.senderKeyId == k.theirKeyId {
      hide Remaining, Picked, Live, Selectable, Past, RotateTheirs, Dec;
      TheirsShift(k, m.y);
      RemainingFrom(k.macs, TheirsAre(Dec(k.theirKeyId)));
    }
  }

  lemma KeptRotation(e: Setting, k: Keys, m: DataMsg, rnd: Option<nat>)
    requires e.Valid() && Live(k) && forall u <- k.macs :: Selectable(k, u)
    requires !EarlyReveal(k, m, rnd) && !IdWraps(k, m, rnd)
    ensures var k' := Rotated(e, k, m, rnd);
            && Live(k') && (forall u <- k'.macs :: Selectable(k', u))
            && (forall u <- Moved(e, k, m, rnd) :: Past(k', u))
            && (forall u :: Past(k, u) ==> Past(k', u))
  {
    RotateOursLifecycle(e, k, m, rnd);
    var (k1, rotated) := RotateOurs(e.group, k, m.recipientKeyId, rnd);
    assert rotated <==> rnd.Some? || m.recipientKeyId != k.ourKeyId;
    hide RotateOurs, RotateTheirs, MovedOurs, MovedTheirs, Selectable, Past, Live;
    if rotated {
      RotateTheirsLifecycle(k1, m);
    }
  }

  lemma WrapEnds(e: Setting, k: Keys, m: DataMsg, rnd: Option<nat>)
    requires e.Valid() && IdWraps(k, m, rnd)
    ensures !Live(Rotated(e, k, m, rnd))
  {
    hide Remaining, Picked, KeysOf, Group.Exp;
  }

  /** A failed rotation moves exactly the keys of the older pair, and each stays selectable. */
  lemma FailedMoves(e: Setting, k: Keys, m: DataMsg)
    requires e.Valid() && Live(k) && (forall u <- k.macs :: Selectable(k, u)) && m.recipientKeyId == k.ourKeyId
    ensures forall u <- k.macs :: u in Moved(e, k, m, None) <==> u.ourKeyId == Dec(k.ourKeyId)
    ensures forall u <- Moved(e, k, m, None) :: u in k.macs && Selectable(Rotated(e, k, m, None), u)
    ensures Live(Rotated(e, k, m, None))
  {
    var ours := Picked(k.macs, OursAre(Dec(k.ourKeyId)));
    assert Moved(e, k, m, None) == ours by { assert ours + [] == ours; }
    FailedShift(e, k);
    hide Remaining, Picked, RotateOurs, Live, Selectable, Past, Dec, Moved;
    PickedCorrect(k.macs, OursAre(Dec(k.ourKeyId)));
    RemainingFrom(k.macs, OursAre(Dec(k.ourKeyId)));
  }

  /** Of the keys a rotation moves to the reveal list none can be selected any more, exactly unless
      the random read failed with keys of the older pair on record. */
  lemma FailedRotationRevealsEarly(e: Setting, k: Keys, m: DataMsg, rnd: Option<nat>)
    requires e.Valid() && Live(k) && (forall u <- k.macs :: Selectable(k, u)) && !IdWraps(k, m, rnd)
    ensures var k', moved := Rotated(e, k, m, rnd), Moved(e, k, m, rnd);
            && ((exists u <- moved :: Selectable(k', u)) <==> EarlyReveal(k, m, rnd))
            && ((forall u <- moved :: Past(k', u)) <==> !EarlyReveal(k, m, rnd))
            && k'.oldMacs == k.oldMacs + KeysOf(moved)
  {
    RotationConserves(e, k, m, rnd);
    hide Remaining, Picked, KeysOf, RotateOurs, RotateTheirs, Live, Selectable, Past, Rotated, Moved, Dec;
    var k', moved := Rotated(e, k, m, rnd), Moved(e, k, m, rnd);
    if EarlyReveal(k, m, rnd) {
      FailedMoves(e, k, m);
      var u :| u in k.macs && u.ourKeyId == Dec(k.ourKeyId);
      assert u in moved;
    } else {
      KeptRotation(e, k, m, rnd);
    }
    forall u <- moved
      ensures Live(k') && Past(k', u) ==> !Selectable(k', u)
    {
      if Live(k') && Past(k', u) { PastNotSelectable(k', u); }
    }
  }

  /** One step keeps the lifecycle exactly unless it breaks it in one of the two ways. */
  lemma StepMacLifecycle(e: Setting, n: Node, a: Action)
    requires e.Valid() && MacLifecycle(n)
    ensures MacLifecycle(Step(e, n, a)) <==> !Breaks(e, n, a)
  {
    hide Send, Process, Derived, Moved, Recorded, Rotated, Selectable, Past, Live, SameSlots, PickOurs, PickTheirs;
    hide EarlyReveal, IdWraps, Acceptable, Deserialize;
    var n' := Step(e, n, a);
    match a
    case SendText(message, flag, tlvs) =>
      if Send(e, n.party, message, flag, tlvs).Sent? {
        SendMacs(e, n.party, message, flag, tlvs);
        ExtendedLifecycle(n, n'.party.keys);
      }
    case ReceiveBytes(header, body, rnd) =>
      ProcessMacs(e, n.party, header, body, rnd);
      AcceptedExactly(e, n.party, header, body, rnd);
      var d := Derived(e, n.party, body);
      if d.Some? {
        ExtendedLifecycle(n, d.value.0);
        if Process(e, n.party, header, body, rnd).1.Accepted? {
          RecordingBreaksNothing(n.party.keys, d.value.0, d.value.1, rnd);
          AcceptedLifecycle(e, n, d.value.0, d.value.1, rnd);
        } else {
          SlotsTransfer(d.value.0, n.party.keys, n'.party.keys, n.retired);
        }
      } else {
        SlotsTransfer(n.party.keys, n.party.keys, n'.party.keys, n.retired);
      }
  }

  /** Recording a key for the message's own pair changes neither condition. */
  lemma RecordingBreaksNothing(k: Keys, k': Keys, m: DataMsg, rnd: Option<nat>)
    requires Live(k) && SameSlots(k', k) && |k'.macs| == |k.macs| + 1 && k.macs < k'.macs
    requires k'.macs[|k.macs|].ourKeyId == m.recipientKeyId
    ensures EarlyReveal(k', m, rnd) == EarlyReveal(k, m, rnd) && IdWraps(k', m, rnd) == IdWraps(k, m, rnd)
  {
    assert k'.macs == k.macs + [k'.macs[|k.macs|]];
  }

  lemma AcceptedLifecycle(e: Setting, n: Node, k: Keys, m: DataMsg, rnd: Option<nat>)
    requires e.Valid() && Live(k) && (forall u <- k.macs :: Selectable(k, u)) && (forall u <- n.retired :: Past(k, u))
    ensures var n' := n.(party := n.party.(keys := Rotated(e, k, m, rnd)), retired := n.retired + Moved(e, k, m, rnd));
            MacLifecycle(n') <==> !EarlyReveal(k, m, rnd) && !IdWraps(k, m, rnd)
  {
    hide Rotated, Moved, Live, Selectable, Past, EarlyReveal, IdWraps;
    var k', moved := Rotated(e, k, m, rnd), Moved(e, k, m, rnd);
    if IdWraps(k, m, rnd) {
      WrapEnds(e, k, m, rnd);
    } else {
      FailedRotationRevealsEarly(e, k, m, rnd);
      if EarlyReveal(k, m, rnd) {
        var u :| u in moved && !Past(k', u);
        assert u in n.retired + moved;
      } else {
        KeptRotation(e, k, m, rnd);
      }
    }
  }

  lemma SlotsTransfer(k: Keys, k0: Keys, k': Keys, retired: seq<MacUse>)
    requires SameSlots(k', k0) && (k == k0 || SameSlots(k, k0)) && k'.macs == k.macs && Live(k)
    requires (forall u <- k.macs :: Selectable(k, u)) && (forall u <- retired :: Past(k, u))
    ensures Live(k') && (forall u <- k'.macs :: Selectable(k', u)) && (forall u <- retired :: Past(k', u))
  {
  }

  lemma ExtendedLifecycle(n: Node, k': Keys)
    requires MacLifecycle(n) && SameSlots(k', n.party.keys)
    requires |k'.macs| == |n.party.keys.macs| + 1 && n.party.keys.macs < k'.macs
    requires var u := k'.macs[|n.party.keys.macs|];
             PickOurs(n.party.keys, u.ourKeyId).Some? && PickTheirs(n.party.keys, u.theirKeyId).Some?
    ensures Live(k') && (forall u <- k'.macs :: Selectable(k', u)) && (forall u <- n.retired :: Past(k', u))
  {
    var k := n.party.keys;
    assert k'.macs == k.macs + [k'.macs[|k.macs|]];
    forall u
      ensures Selectable(k, u) == Selectable(k', u) && Past(k, u) == Past(k', u)
    {
      SelectableSlots(k, k', u);
    }
  }

  ghost predicate Unbroken(e: Setting, ns: seq<Node>, acts: seq<Action>, i: nat)
    requires e.Valid() && i <= |acts| < |ns|
  {
    forall j {:trigger acts[j]} :: 0 <= j < i ==> !Breaks(e, ns[j], acts[j])
  }

  lemma UnbrokenStep(e: Setting, ns: seq<Node>, acts: seq<Action>, i: nat)
    requires e.Valid() && 0 < i <= |acts| < |ns|
    ensures Unbroken(e, ns, acts, i) <==> Unbroken(e, ns, acts, i - 1) && !Breaks(e, ns[i - 1], acts[i - 1])
  {
    hide Breaks;
  }

  /** Up to any point of any run the lifecycle held throughout exactly if no step broke it. */
  lemma {:induction false} RunMacLifecycle(e: Setting, ns: seq<Node>, acts: seq<Action>, i: nat)
    requires e.Valid() && IsRun(e, ns, acts) && i < |ns|
    ensures i <= |acts| < |ns|
    ensures (forall j :: 0 <= j <= i ==> MacLifecycle(ns[j])) <==> Unbroken(e, ns, acts, i)
  {
    hide Step, Breaks, MacLifecycle;
    assert |ns| == |acts| + 1;
    if i == 0 {
      StartMacLifecycle(ns[0]);
    } else {
      hide *;
      RunStep(e, ns, acts, i);
      RunMacLifecycle(e, ns, acts, i - 1);
      UnbrokenStep(e, ns, acts, i);
      if MacLifecycle(ns[i - 1]) {
        StepMacLifecycle(e, ns[i - 1], acts[i - 1]);
      }
      assert (forall j :: 0 <= j <= i ==> MacLifecycle(ns[j]))
             <==> (forall j :: 0 <= j <= i - 1 ==> MacLifecycle(ns[j])) && MacLifecycle(ns[i]);
    }
  }

  lemma StartMacLifecycle(n: Node)
    requires Starting(n)
    ensures MacLifecycle(n)
  {
  }

  /** A retired key, published or about to be, belongs to a pair of key ids that no later state of
      the run can select again; a key still in the history belongs to one that can be selected now. */
  lemma RetiredForGood(e: Setting, ns: seq<Node>, acts: seq<Action>, i: nat, j: nat)
    requires e.Valid() && IsRun(e, ns, acts) && i <= j < |ns| && Unbroken(e, ns, acts, j)
    ensures forall u <- ns[i].retired :: !Selectable(ns[j].party.keys, u)
    ensures forall u <- ns[i].party.keys.macs :: Selectable(ns[i].party.keys, u)
  {
    hide Step, IsRun, Unbroken, Selectable, Past, Live;
    RunMacLifecycle(e, ns, acts, j);
    assert MacLifecycle(ns[i]) && MacLifecycle(ns[j]);
    AcceptedGrows(e, ns, acts, i, j);
    forall u <- ns[i].retired
      ensures !Selectable(ns[j].party.keys, u)
    {
      assert u in ns[j].retired;
      PastNotSelectable(ns[j].party.keys, u);
    }
  }

  // ------------------------------------------------------------ no slot is ever empty

  ghost predicate Filled(k: Keys) {
    k.ourCurrent.Some? && k.ourPrevious.Some? && k.theirCurrent.Some?
  }

  lemma StepFilled(e: Setting, n: Node, a: Action)
    requires e.Valid() && Filled(n.party.keys)
    ensures Filled(Step(e, n, a).party.keys)
  {
    hide Send, Process, Derived, Moved, Recorded, KeysOf, Picked, Remaining, Group.Exp, PickOurs, PickTheirs;
    match a
    case SendText(message, flag, tlvs) =>
      if Send(e, n.party, message, flag, tlvs).Sent? {
        SendMacs(e, n.party, message, flag, tlvs);
      }
    case ReceiveBytes(header, body, rnd) =>
      ProcessMacs(e, n.party, header, body, rnd);
  }

  lemma StartFilled(n: Node)
    requires Starting(n)
    ensures Filled(n.party.keys)
  {
  }

  lemma {:induction false} RunFilled(e: Setting, ns: seq<Node>, acts: seq<Action>, i: nat)
    requires e.Valid() && IsRun(e, ns, acts) && i < |ns|
    ensures Filled(ns[i].party.keys)
  {
    hide *;
    if i == 0 {
      RunStarts(e, ns, acts);
      StartFilled(ns[0]);
    } else {
      RunStep(e, ns, acts, i);
      RunFilled(e, ns, acts, i - 1);
      StepFilled(e, ns[i - 1], acts[i - 1]);
    }
  }

  /** In every run a key id is refused exactly for one of the errors the selection names, never for
      want of a number in its slot. */
  lemma RefusedForItsId(e: Setting, ns: seq<Node>, acts: seq<Action>, i: nat, id: uint32)
    requires e.Valid() && IsRun(e, ns, acts) && i < |ns|
    ensures var k := ns[i].party.keys;
            && (PickOurs(k, id).None? <==> id == 0 || k.ourKeyId == 0 || (id != k.ourKeyId && id != Dec(k.ourKeyId)))
            && (PickTheirs(k, id).None? <==>
                  || id == 0 || k.theirKeyId == 0 || (id != k.theirKeyId && id != Dec(k.theirKeyId))
                  || (id == Dec(k.theirKeyId) && k.theirPrevious.None?))
  {
    RunFilled(e, ns, acts, i);
    hide IsRun;
  }

  // ------------------------------------------------------------ an early reveal, reached

  /** Process as a decision on counter, key ids and signature. */
  lemma ProcessOutcome(e: Setting, p: Party, header: bytes, body: bytes, rnd: Option<nat>, r: Received)
    requires e.Valid() && p.encrypted && Deserialize(body) == Some(r)
    ensures var out, m := Process(e, p, header, body, rnd).1, r.msg;
            var ours, theirs := PickOurs(p.keys, m.recipientKeyId), PickTheirs(p.keys, m.senderKeyId);
            if m.ctr <= CounterOf(p.keys.counters, m.recipientKeyId, m.senderKeyId).theirs then out.Regressed?
            else if ours.None? || theirs.None? then out.BadKeyId?
            else
              var sk := SessionKeysFrom(e.crypto, e.group, ours.value.priv, ours.value.pub, theirs.value);
              if CheckSign(e.crypto, sk.receivingMac, header, r) then
                && out.Accepted? && out.received == m && out.extra == sk.extra
                && out.plain == Decrypt(e.crypto, sk.receivingAes, m.ctr, m.encrypted)
              else out.BadMac?
  {
    hide Decrypt, CheckSign, SessionKeysFrom, Deserialize, CounterOf, SetCounter, Counted, PickOurs, PickTheirs, RotateOurs, RotateTheirs;
    var m := r.msg;
    PicksIgnoreCounters(p.keys, CheckCounter(p.keys, m.recipientKeyId, m.senderKeyId, m.ctr).0, m.recipientKeyId, m.senderKeyId);
  }

  /** A message that the peer of a starting session signs for both current key ids. */
  ghost predicate Signed(e: Setting, k: Keys, header: bytes, m: DataMsg)
    requires e.Valid() && k.ourCurrent.Some? && k.theirCurrent.Some?
  {
    && m.senderKeyId == k.theirKeyId && m.recipientKeyId == k.ourKeyId && m.ctr != 0 && Sendable(m)
    && CheckSign(e.crypto, SessionKeysFrom(e.crypto, e.group, k.ourCurrent.value.priv, k.ourCurrent.value.pub,
                                           k.theirCurrent.value).receivingMac, header, Received(m, SerializeUnsigned(m)))
  }

  /** One key is on record, the one messages are sent with, and nothing came in for the current pair. */
  ghost predicate OneSent(k: Keys) {
    && |k.macs| == 1 && k.macs[0].ourKeyId == Dec(k.ourKeyId) && k.macs[0].theirKeyId == k.theirKeyId
    && CounterOf(k.counters, k.ourKeyId, k.theirKeyId).theirs == 0
  }

  lemma FirstSend(e: Setting, n: Node, message: bytes, flag: byte, tlvs: seq<Tlv>)
    requires e.Valid() && Starting(n) && n.party.encrypted
    ensures var n1 := Step(e, n, SendText(message, flag, tlvs)); var k, k1 := n.party.keys, n1.party.keys;
            && n1.party.encrypted && n1.accepted == [] && n1.retired == []
            && SameSlots(k1, k) && Live(k1) && k1.oldMacs == [] && OneSent(k1)
  {
    hide SetCounter, Encrypt, SessionKeysFrom, SerializeUnsigned, CounterOf;
    var k := n.party.keys;
    assert Send(e, n.party, message, flag, tlvs).Sent?;
    SendCounters(e, n.party, message, flag, tlvs, k.ourKeyId, k.theirKeyId);
    NothingCounted(k.ourKeyId, k.theirKeyId);
  }

  lemma NothingCounted(o: uint32, t: uint32)
    ensures CounterOf([], o, t).theirs == 0
  {
  }

  /** The message is accepted, and the one recorded key of the older pair moves. */
  lemma ThenReceive(e: Setting, n: Node, header: bytes, m: DataMsg)
    requires var k := n.party.keys; e.Valid() && n.party.encrypted && Live(k) && OneSent(k) && Signed(e, k, header, m)
    ensures var a, k := ReceiveBytes(header, Serialize(m), None), n.party.keys; var n' := Step(e, n, a);
            && Breaks(e, n, a) && n'.accepted == n.accepted + [StampOf(m)] && n'.retired == n.retired + k.macs
            && n'.party.keys.oldMacs == k.oldMacs + [k.macs[0].key] && SendsUnder(n'.party.keys, k.macs[0])
  {
    var k, a := n.party.keys, ReceiveBytes(header, Serialize(m), None);
    DataMsgRoundTrip(m);
    SignedAccepted(e, n.party, header, m);
    hide Serialize, SerializeUnsigned, Deserialize, CheckSign, SessionKeysFrom, Process, CounterOf, Derived, Moved, Rotated, Sendable, Acceptable;
    AcceptedExactly(e, n.party, header, Serialize(m), None);
    ProcessMacs(e, n.party, header, Serialize(m), None);
    var d := Derived(e, n.party, Serialize(m)).value;
    OneMoves(e, k, d.0, m);
    StillSendsUnder(k, Rotated(e, d.0, m, None));
  }

  /** The next message would be sent under this pair of key ids. */
  ghost predicate SendsUnder(k: Keys, u: MacUse) {
    Selectable(k, u) && u.ourKeyId == Dec(k.ourKeyId) && u.theirKeyId == k.theirKeyId
  }

  lemma StillSendsUnder(k: Keys, k': Keys)
    requires Live(k) && OneSent(k) && SameSlots(k', k)
    ensures SendsUnder(k', k.macs[0])
  {
  }

  lemma SignedSlots(e: Setting, k: Keys, k': Keys, header: bytes, m: DataMsg)
    requires e.Valid() && Live(k) && SameSlots(k', k) && Signed(e, k, header, m)
    ensures Live(k') && Signed(e, k', header, m)
  {
    hide CheckSign, SessionKeysFrom, Sendable;
  }

  lemma SignedAccepted(e: Setting, p: Party, header: bytes, m: DataMsg)
    requires var k := p.keys;
             && e.Valid() && p.encrypted && Live(k) && CounterOf(k.counters, k.ourKeyId, k.theirKeyId).theirs == 0
             && Signed(e, k, header, m) && Deserialize(Serialize(m)) == Some(Received(m, SerializeUnsigned(m)))
    ensures var out := Process(e, p, header, Serialize(m), None).1; out.Accepted? && out.received == m
    ensures var d := Derived(e, p, Serialize(m)); d.Some? && d.value.1 == m
  {
    hide Process, Serialize, SerializeUnsigned, Deserialize, CheckSign, SessionKeysFrom, CounterOf, Sendable, SetCounter;
    ProcessOutcome(e, p, header, Serialize(m), None, Received(m, SerializeUnsigned(m)));
  }

  lemma OneMoves(e: Setting, k0: Keys, k: Keys, m: DataMsg)
    requires e.Valid() && Live(k0) && SameSlots(k, k0) && m.recipientKeyId == k.ourKeyId && k.oldMacs == k0.oldMacs
    requires |k0.macs| == 1 && |k.macs| == 2 && k0.macs < k.macs
    requires k0.macs[0].ourKeyId == Dec(k0.ourKeyId) && k.macs[1].ourKeyId == k.ourKeyId
    ensures EarlyReveal(k0, m, None) && Moved(e, k, m, None) == k0.macs
    ensures var k' := Rotated(e, k, m, None); SameSlots(k', k0) && k'.oldMacs == k0.oldMacs + [k0.macs[0].key]
  {
    var u, v := k0.macs[0], k.macs[1];
    assert k0.macs == [u] && k.macs == [u, v];
    PickedFirst(u, v, OursAre(Dec(k.ourKeyId)));
    assert KeysOf([u]) == [u.key];
    hide Picked, Remaining, KeysOf;
    assert MovedOurs(k, m) + [] == [u];
  }

  lemma PickedFirst(u: MacUse, v: MacUse, p: MacUse -> bool)
    requires p(u) && !p(v)
    ensures Picked([u, v], p) == [u]
  {
    assert [u, v][..1] == [u] && [u][..0] == [];
    assert Picked([u], p) == Picked([], p) + [u];
  }

  /** From every starting session: one message sent, then one accepted for the current key ids while
      the random read fails, and the MAC key of the first is on the reveal list although the next
      message would be sent and accepted under that very key. */
  lemma EarlyRevealReached(e: Setting, n: Node, message: bytes, flag: byte, tlvs: seq<Tlv>, header: bytes, m: DataMsg)
    requires e.Valid() && Starting(n) && n.party.encrypted && Signed(e, n.party.keys, header, m)
    ensures var n1 := Step(e, n, SendText(message, flag, tlvs));
            var n2 := Step(e, n1, ReceiveBytes(header, Serialize(m), None));
            && |n1.party.keys.macs| == 1 && Breaks(e, n1, ReceiveBytes(header, Serialize(m), None))
            && n2.accepted == [StampOf(m)] && n2.retired == n1.party.keys.macs
            && n2.party.keys.oldMacs == [n2.retired[0].key] && SendsUnder(n2.party.keys, n2.retired[0])
  {
    assert Live(n.party.keys);
    FirstSend(e, n, message, flag, tlvs);
    var n1 := Step(e, n, SendText(message, flag, tlvs));
    assert |n1.party.keys.macs| == 1;
    hide *;
    SignedSlots(e, n.party.keys, n1.party.keys, header, m);
    ThenReceive(e, n1, header, m);
    assert [] + n1.party.keys.macs == n1.party.keys.macs;
  }
}
