/** internal/dht/node.go: transaction ids, the table of pending transactions under every
    interleaving, and the iterative peer lookup. */
module DhtNode {
  import opened Bags
  import opened Bytes
  import opened NodeId
  import opened TableSpec
  import opened Closest
  import opened RoutingTable
  import opened Krpc

  // ---------------------------------------------------------------------
  // Transaction ids
  // ---------------------------------------------------------------------

  /** The two bytes of a 16-bit counter that has been raised to `n`. */
  function TxnID(n: nat): bytes {
    BigEndian(n % 0x1_0000, 2)
  }

  class Node {
    var txnIDCounter: uint16
    var pendingTxns: map<bytes, nat>
    var nextChannel: nat

    constructor ()
      ensures txnIDCounter == 0 && pendingTxns == map[] && nextChannel == 0
    {
      txnIDCounter, pendingTxns, nextChannel := 0, map[], 0;
    }

    /** The counter wraps around after 65535. */
    method NextTxnID() returns (tid: bytes)
      modifies this`txnIDCounter
      ensures txnIDCounter == (old(txnIDCounter) + 1) % 0x1_0000
      ensures tid == TxnID(old(txnIDCounter) + 1)
    {
      txnIDCounter := if txnIDCounter == 0xFFFF then 0 else txnIDCounter + 1;
      var id := txnIDCounter;
      tid := [(id / 256) as byte, (id % 256) as byte];
      TwoBytes(id);
    }

    /** The locked region of FindPeers: a fresh channel under the id; an older channel
        under the same id is forgotten. */
    method Register(tid: bytes) returns (channel: nat)
      modifies this`pendingTxns, this`nextChannel
      ensures channel == old(nextChannel) && nextChannel == channel + 1
      ensures pendingTxns == old(pendingTxns)[tid := channel]
    {
      channel := nextChannel;
      nextChannel := nextChannel + 1;
      pendingTxns := pendingTxns[tid := channel];
    }

    /** The locked region of handleResponse: takes the channel out. */
    method TakePending(tid: bytes) returns (channel: Option<nat>)
      modifies this`pendingTxns
      ensures channel == (if tid in old(pendingTxns) then Some(old(pendingTxns)[tid]) else None)
      ensures pendingTxns == old(pendingTxns) - {tid}
    {
      channel := None;
      if tid in pendingTxns {
        channel := Some(pendingTxns[tid]);
      }
      pendingTxns := pendingTxns - {tid};
    }
  }

  lemma TwoBytes(id: nat)
    requires id < 0x1_0000
    ensures BigEndian(id, 2) == [(id / 256) as byte, (id % 256) as byte]
  {
    assert BigEndian(id / 256, 1) == BigEndian(id / 256 / 256, 0) + [(id / 256 % 256) as byte];
  }

  /** Two ids coincide exactly when they are a multiple of 65536 draws apart, so any
      65536 consecutive ones are distinct. */
  lemma TxnIDsRepeat(i: nat, j: nat)
    requires i <= j
    ensures TxnID(i) == TxnID(j) <==> (j - i) % 0x1_0000 == 0
  {
    hide ToNat, BigEndian;
    assert Pow256(2) == 0x1_0000;
    ToNatOfBigEndian(i % 0x1_0000, 2);
    ToNatOfBigEndian(j % 0x1_0000, 2);
    SameRemainder(i, j);
  }

  lemma SameRemainder(i: nat, j: nat)
    requires i <= j
    ensures i % 0x1_0000 == j % 0x1_0000 <==> (j - i) % 0x1_0000 == 0
  {
    var d := j - i;
    assert d == (d / 0x1_0000) * 0x1_0000 + d % 0x1_0000;
    assert i == (i / 0x1_0000) * 0x1_0000 + i % 0x1_0000;
    assert j == (j / 0x1_0000) * 0x1_0000 + j % 0x1_0000;
  }

  // ---------------------------------------------------------------------
  // Pending transactions
  // ---------------------------------------------------------------------

  /** A handler of a response between its locked region and its send. */
  datatype Handler = Handler(channel: nat, tid: bytes)

  /** Ids drawn so far, draws whose channel is not registered yet, the draw each channel
      was registered under, the pending table, the handlers, the id of the message each
      channel was sent, and how often channels were sent to and received from. */
  datatype Pending = Pending(
    drawn: nat, waiting: seq<nat>, owner: seq<nat>, table: map<bytes, nat>, handlers: seq<Handler>,
    carried: map<nat, bytes>, sent: multiset<nat>, received: multiset<nat>, drops: nat)

  /** One locked region or channel operation each. */
  datatype Step =
    | StepDraw
    | StepRegister(w: nat)
    | StepForget(w: nat)
    | StepTake(tid: bytes)
    | StepSend(i: nat)
    | StepReceive(channel: nat)

  const IDLE := Pending(0, [], [], map[], [], map[], multiset{}, multiset{}, 0)

  predicate Enabled(s: Pending, step: Step) {
    match step
    case StepRegister(w) => w < |s.waiting|
    case StepForget(w) => w < |s.waiting|
    case StepSend(i) => i < |s.handlers|
    case StepReceive(c) => s.sent[c] > s.received[c]
    case _ => true
  }

  function Next(s: Pending, step: Step): Pending
    requires Enabled(s, step)
  {
    match step
    case StepDraw => s.(drawn := s.drawn + 1, waiting := s.waiting + [s.drawn + 1])
    case StepRegister(w) =>
      s.(table := s.table[TxnID(s.waiting[w]) := |s.owner|],
         owner := s.owner + [s.waiting[w]], waiting := Without(s.waiting, w))
    case StepForget(w) =>
      // The id of a query whose response nobody waits for.
      s.(waiting := Without(s.waiting, w))
    case StepTake(tid) =>
      if tid in s.table
      then s.(table := s.table - {tid}, handlers := s.handlers + [Handler(s.table[tid], tid)]) else s
    case StepSend(i) =>
      // A channel holds one message; a send that would block is dropped.
      var h := s.handlers[i];
      var s' := s.(handlers := Without(s.handlers, i));
      if s.sent[h.channel] > s.received[h.channel] then s'.(drops := s.drops + 1)
      else s'.(sent := s.sent + multiset{h.channel}, carried := s.carried[h.channel := h.tid])
    case StepReceive(c) => s.(received := s.received + multiset{c})
  }

  /** Every channel is in the table, with one handler, or used, and only one of these. */
  predicate ChannelsInOnePlace(s: Pending) {
    && (forall t, u | t in s.table && u in s.table && t != u :: s.table[t] != s.table[u])
    && (forall t | t in s.table :: s.table[t] < |s.owner| && s.table[t] !in s.sent)
    && (forall t, i | t in s.table && 0 <= i < |s.handlers| :: s.table[t] != s.handlers[i].channel)
    && (forall i, j | 0 <= i < j < |s.handlers| :: s.handlers[i].channel != s.handlers[j].channel)
    && (forall i | 0 <= i < |s.handlers| ::
          s.handlers[i].channel < |s.owner| && s.handlers[i].channel !in s.sent)
    && (forall c | c in s.sent :: c < |s.owner| && s.sent[c] == 1)
    && s.drops == 0
  }

  /** Wherever a channel is, it goes with the id it was registered under. */
  predicate IdsMatch(s: Pending) {
    && (forall t | t in s.table :: s.table[t] < |s.owner| && t == TxnID(s.owner[s.table[t]]))
    && (forall i | 0 <= i < |s.handlers| ::
          s.handlers[i].channel < |s.owner| && s.handlers[i].tid == TxnID(s.owner[s.handlers[i].channel]))
    && (forall c | c in s.sent :: c in s.carried) && (forall c | c in s.carried :: c in s.sent)
    && (forall c | c in s.carried :: c < |s.owner| && s.carried[c] == TxnID(s.owner[c]))
  }

  /** Draws are registered at most once. */
  predicate DrawsDistinct(s: Pending) {
    && (forall i | 0 <= i < |s.waiting| :: 0 < s.waiting[i] <= s.drawn)
    && (forall i | 0 <= i < |s.owner| :: 0 < s.owner[i] <= s.drawn)
    && (forall i, j | 0 <= i < j < |s.waiting| :: s.waiting[i] != s.waiting[j])
    && (forall i, j | 0 <= i < j < |s.owner| :: s.owner[i] != s.owner[j])
    && (forall i, j | 0 <= i < |s.waiting| && 0 <= j < |s.owner| :: s.waiting[i] != s.owner[j])
  }

  /** A response to the id of channel c will reach it, or has. */
  predicate InPlace(s: Pending, c: nat)
    requires c < |s.owner|
  {
    || (TxnID(s.owner[c]) in s.table && s.table[TxnID(s.owner[c])] == c)
    || (exists i | 0 <= i < |s.handlers| :: s.handlers[i].channel == c)
    || c in s.sent
  }

  /** A later channel was registered under the same id. */
  predicate Superseded(s: Pending, c: nat)
    requires c < |s.owner|
  {
    exists d | c < d < |s.owner| :: TxnID(s.owner[d]) == TxnID(s.owner[c])
  }

  predicate NoneLost(s: Pending) {
    forall c | 0 <= c < |s.owner| :: InPlace(s, c) || Superseded(s, c)
  }

  predicate Inv(s: Pending) {
    ChannelsInOnePlace(s) && IdsMatch(s) && DrawsDistinct(s) && NoneLost(s)
  }

  lemma DrawKeeps(s: Pending)
    requires Inv(s)
    ensures Inv(Next(s, StepDraw))
  {
    hide TxnID, ChannelsInOnePlace, IdsMatch, NoneLost;
    SamePlaces(s, Next(s, StepDraw));
  }

  /** Channels stay where they are if table, handlers and sends do. */
  lemma SamePlaces(s: Pending, s': Pending)
    requires ChannelsInOnePlace(s) && IdsMatch(s) && NoneLost(s)
    requires s'.owner == s.owner && s'.table == s.table && s'.handlers == s.handlers && s'.sent == s.sent
    requires s'.carried == s.carried && s'.drops == s.drops
    ensures ChannelsInOnePlace(s') && IdsMatch(s') && NoneLost(s')
  {
    hide TxnID, ChannelsInOnePlace, IdsMatch;
    forall c | 0 <= c < |s.owner| ensures InPlace(s', c) || Superseded(s', c) {
      SamePlace(s, s', c);
    }
    assert ChannelsInOnePlace(s') by {
      SameOnePlace(s, s');
    }
    assert IdsMatch(s') by {
      SameIds(s, s');
    }
  }

  lemma SameOnePlace(s: Pending, s': Pending)
    requires ChannelsInOnePlace(s)
    requires s'.owner == s.owner && s'.table == s.table && s'.handlers == s.handlers && s'.sent == s.sent
    requires s'.drops == s.drops
    ensures ChannelsInOnePlace(s')
  {
  }

  lemma SameIds(s: Pending, s': Pending)
    requires IdsMatch(s)
    requires s'.owner == s.owner && s'.table == s.table && s'.handlers == s.handlers && s'.sent == s.sent
    requires s'.carried == s.carried
    ensures IdsMatch(s')
  {
    hide TxnID;
  }

  lemma SamePlace(s: Pending, s': Pending, c: nat)
    requires c < |s.owner| && (InPlace(s, c) || Superseded(s, c))
    requires s'.owner == s.owner && s'.table == s.table && s'.handlers == s.handlers && s'.sent == s.sent
    ensures InPlace(s', c) || Superseded(s', c)
  {
    hide TxnID;
  }

  lemma ForgetKeeps(s: Pending, w: nat)
    requires Inv(s) && w < |s.waiting|
    ensures Inv(Next(s, StepForget(w)))
  {
    hide TxnID, ChannelsInOnePlace, IdsMatch, NoneLost;
    var s' := Next(s, StepForget(w));
    WaitingRest(s, s', w);
    SamePlaces(s, s');
  }

  lemma WaitingRest(s: Pending, s': Pending, w: nat)
    requires DrawsDistinct(s) && w < |s.waiting|
    requires s'.waiting == Without(s.waiting, w) && s'.drawn == s.drawn && s'.owner == s.owner
    ensures DrawsDistinct(s')
    ensures forall i | 0 <= i < |s'.waiting| :: s'.waiting[i] != s.waiting[w]
  {
    forall i | 0 <= i < |s'.waiting| ensures s'.waiting[i] == s.waiting[if i < w then i else i + 1] {
      WithoutElement(s.waiting, w, i);
    }
  }

  lemma RegisterKeepsDraws(s: Pending, w: nat)
    requires DrawsDistinct(s) && w < |s.waiting|
    ensures DrawsDistinct(Next(s, StepRegister(w)))
  {
    hide TxnID, Without;
    WaitingRest(s, s.(waiting := Without(s.waiting, w)), w);
  }

  lemma RegisterKeepsPlaces(s: Pending, w: nat)
    requires ChannelsInOnePlace(s) && w < |s.waiting|
    ensures ChannelsInOnePlace(Next(s, StepRegister(w)))
  {
    hide TxnID;
  }

  lemma RegisterKeepsIds(s: Pending, w: nat)
    requires IdsMatch(s) && w < |s.waiting|
    ensures IdsMatch(Next(s, StepRegister(w)))
  {
    hide TxnID;
  }

  /** The channel that was in the table under the same id is superseded by the new one. */
  lemma RegisterLosesNone(s: Pending, w: nat)
    requires NoneLost(s) && w < |s.waiting|
    ensures NoneLost(Next(s, StepRegister(w)))
  {
    hide TxnID;
    var s' := Next(s, StepRegister(w));
    var n, tid := |s.owner|, TxnID(s.waiting[w]);
    assert s'.owner[n] == s.waiting[w] && s'.table[tid] == n;
    forall c | 0 <= c < n ensures InPlace(s', c) || Superseded(s', c) {
      assert s'.owner[c] == s.owner[c];
      if TxnID(s.owner[c]) == tid {
        assert TxnID(s'.owner[n]) == TxnID(s'.owner[c]);
      } else if !InPlace(s, c) {
        var d :| c < d < n && TxnID(s.owner[d]) == TxnID(s.owner[c]);
        assert s'.owner[d] == s.owner[d];
      }
    }
  }

  lemma TakeKeepsPlaces(s: Pending, tid: bytes)
    requires ChannelsInOnePlace(s)
    ensures ChannelsInOnePlace(Next(s, StepTake(tid)))
  {
  }

  lemma TakeKeepsIds(s: Pending, tid: bytes)
    requires IdsMatch(s)
    ensures IdsMatch(Next(s, StepTake(tid)))
  {
    hide TxnID;
  }

  lemma TakeLosesNone(s: Pending, tid: bytes)
    requires NoneLost(s)
    ensures NoneLost(Next(s, StepTake(tid)))
  {
    hide TxnID;
    var s' := Next(s, StepTake(tid));
    forall c | 0 <= c < |s.owner| ensures InPlace(s', c) || Superseded(s', c) {
      if Superseded(s, c) {
        assert Superseded(s', c);
      } else if i :| 0 <= i < |s.handlers| && s.handlers[i].channel == c {
        assert s'.handlers[i].channel == c;
      } else if tid in s.table && s.table[tid] == c {
        assert s'.handlers[|s.handlers|].channel == c;
      }
    }
  }

  lemma SendKeepsPlaces(s: Pending, i: nat)
    requires ChannelsInOnePlace(s) && Enabled(s, StepSend(i))
    ensures ChannelsInOnePlace(Next(s, StepSend(i)))
  {
    hide Without;
    var s', c := Next(s, StepSend(i)), s.handlers[i].channel;
    forall j | 0 <= j < |s'.handlers|
      ensures s'.handlers[j] == s.handlers[if j < i then j else j + 1]
    {
      WithoutElement(s.handlers, i, j);
    }
    forall j | 0 <= j < |s'.handlers| ensures s'.handlers[j].channel != c {
      var k := if j < i then j else j + 1;
      assert s.handlers[k].channel != c;
    }
  }

  lemma SendKeepsIds(s: Pending, i: nat)
    requires ChannelsInOnePlace(s) && IdsMatch(s) && Enabled(s, StepSend(i))
    ensures IdsMatch(Next(s, StepSend(i)))
  {
    hide TxnID, Without;
    var s' := Next(s, StepSend(i));
    forall j | 0 <= j < |s'.handlers|
      ensures s'.handlers[j] == s.handlers[if j < i then j else j + 1]
    {
      WithoutElement(s.handlers, i, j);
    }
  }

  lemma SendLosesNone(s: Pending, i: nat)
    requires ChannelsInOnePlace(s) && NoneLost(s) && Enabled(s, StepSend(i))
    ensures NoneLost(Next(s, StepSend(i)))
  {
    hide TxnID;
    var s' := Next(s, StepSend(i));
    forall c | 0 <= c < |s.owner| ensures InPlace(s', c) || Superseded(s', c) {
      if Superseded(s, c) {
        assert Superseded(s', c);
      } else if j :| 0 <= j < |s.handlers| && s.handlers[j].channel == c {
        if j != i {
          WithoutElement(s.handlers, i, if j < i then j else j - 1);
          assert s'.handlers[if j < i then j else j - 1].channel == c;
        }
      }
    }
  }

  lemma ReceiveKeeps(s: Pending, c: nat)
    requires Inv(s) && Enabled(s, StepReceive(c))
    ensures Inv(Next(s, StepReceive(c)))
  {
    hide TxnID, ChannelsInOnePlace, IdsMatch, NoneLost;
    SamePlaces(s, Next(s, StepReceive(c)));
  }

  lemma RegisterKeeps(s: Pending, w: nat)
    requires Inv(s) && w < |s.waiting|
    ensures Inv(Next(s, StepRegister(w)))
  {
    hide ChannelsInOnePlace, IdsMatch, DrawsDistinct, NoneLost;
    RegisterKeepsPlaces(s, w);
    RegisterKeepsIds(s, w);
    RegisterKeepsDraws(s, w);
    RegisterLosesNone(s, w);
  }

  lemma TakeKeeps(s: Pending, tid: bytes)
    requires Inv(s)
    ensures Inv(Next(s, StepTake(tid)))
  {
    hide ChannelsInOnePlace, IdsMatch, NoneLost;
    TakeKeepsPlaces(s, tid);
    TakeKeepsIds(s, tid);
    TakeLosesNone(s, tid);
  }

  lemma SendKeeps(s: Pending, i: nat)
    requires Inv(s) && Enabled(s, StepSend(i))
    ensures Inv(Next(s, StepSend(i)))
  {
    hide ChannelsInOnePlace, IdsMatch, NoneLost;
    SendKeepsPlaces(s, i);
    SendKeepsIds(s, i);
    SendLosesNone(s, i);
  }

  lemma StepKeepsInv(s: Pending, step: Step)
    requires Inv(s) && Enabled(s, step)
    ensures Inv(Next(s, step))
  {
    hide Inv, Next;
    match step
    case StepDraw => DrawKeeps(s);
    case StepForget(w) => ForgetKeeps(s, w);
    case StepReceive(c) => ReceiveKeeps(s, c);
    case StepRegister(w) => RegisterKeeps(s, w);
    case StepTake(tid) => TakeKeeps(s, tid);
    case StepSend(i) => SendKeeps(s, i);
  }

  predicate CanRun(s: Pending, steps: seq<Step>)
    decreases |steps|
  {
    steps == [] || (Enabled(s, steps[0]) && CanRun(Next(s, steps[0]), steps[1..]))
  }

  function RunFrom(s: Pending, steps: seq<Step>): Pending
    requires CanRun(s, steps)
    decreases |steps|
  {
    if steps == [] then s else RunFrom(Next(s, steps[0]), steps[1..])
  }

  lemma {:induction false} RunKeepsInv(s: Pending, steps: seq<Step>)
    requires Inv(s) && CanRun(s, steps)
    ensures Inv(RunFrom(s, steps))
    decreases |steps|
  {
    hide Inv, Next, Enabled;
    if steps != [] {
      StepKeepsInv(s, steps[0]);
      RunKeepsInv(Next(s, steps[0]), steps[1..]);
    }
  }

  lemma IdleInv()
    ensures Inv(IDLE)
  {
    hide TxnID;
  }

  /** In every interleaving, with ids wrapping around at will, each registered channel is
      sent at most one message, which carries the id the channel was registered under, and
      the drop branch of handleResponse is never taken. */
  lemma AtMostOneReply(steps: seq<Step>, channel: nat)
    requires CanRun(IDLE, steps)
    ensures var s := RunFrom(IDLE, steps);
            && s.drops == 0 && s.sent[channel] <= 1
            && (channel in s.sent ==>
                  channel < |s.owner| && channel in s.carried && s.carried[channel] == TxnID(s.owner[channel]))
  {
    hide NoneLost, DrawsDistinct, TxnID, CanRun, RunFrom;
    IdleInv();
    RunKeepsInv(IDLE, steps);
  }

  /** A channel can only be lost to a later one whose id was drawn a multiple of 65536
      draws apart: while later registrations stay within 65535 draws of its own, a response
      to its id will reach it, or has. */
  lemma ChannelNotLost(steps: seq<Step>, c: nat)
    requires CanRun(IDLE, steps) && c < |RunFrom(IDLE, steps).owner|
    requires var owner := RunFrom(IDLE, steps).owner;
             forall d | c < d < |owner| :: -0x1_0000 < owner[d] - owner[c] < 0x1_0000
    ensures InPlace(RunFrom(IDLE, steps), c)
  {
    hide TxnID, InPlace, ChannelsInOnePlace, IdsMatch, CanRun, RunFrom;
    IdleInv();
    RunKeepsInv(IDLE, steps);
    var s := RunFrom(IDLE, steps);
    if Superseded(s, c) {
      var d :| c < d < |s.owner| && TxnID(s.owner[d]) == TxnID(s.owner[c]);
      var low, high := Min(s.owner[c], s.owner[d]), s.owner[c] + s.owner[d] - Min(s.owner[c], s.owner[d]);
      TxnIDsRepeat(low, high);
      assert false;
    }
  }

  // Answers arrive

  /** A channel is received from only after it was sent to. */
  ghost predicate SentBeforeReceived(s: Pending) {
    forall c :: s.received[c] <= s.sent[c]
  }

  lemma {:induction false} RunSentBeforeReceived(s: Pending, steps: seq<Step>)
    requires SentBeforeReceived(s) && CanRun(s, steps)
    ensures SentBeforeReceived(RunFrom(s, steps))
    decreases |steps|
  {
    hide TxnID, Without;
    if steps != [] {
      RunSentBeforeReceived(Next(s, steps[0]), steps[1..]);
    }
  }

  /** Channel c got the one message with its id, and that was received. */
  predicate Answered(s: Pending, c: nat) {
    && s.sent[c] == 1 && s.received[c] == 1
    && c < |s.owner| && c in s.carried && s.carried[c] == TxnID(s.owner[c])
  }

  predicate SameDraws(s: Pending, s': Pending) {
    s'.drawn == s.drawn && s'.owner == s.owner
  }

  lemma FirstStep(s: Pending, step: Step, rest: seq<Step>)
    requires Enabled(s, step) && CanRun(Next(s, step), rest)
    ensures CanRun(s, [step] + rest) && RunFrom(s, [step] + rest) == RunFrom(Next(s, step), rest)
  {
    hide Next, Enabled;
    assert ([step] + rest)[1..] == rest;
  }

  lemma ReceiveAnswers(s: Pending, c: nat) returns (steps: seq<Step>)
    requires Inv(s) && SentBeforeReceived(s) && c in s.sent
    ensures CanRun(s, steps) && Answered(RunFrom(s, steps), c) && SameDraws(s, RunFrom(s, steps))
  {
    hide NoneLost, DrawsDistinct, TxnID, Without;
    if s.received[c] == 1 {
      steps := [];
    } else {
      assert s.received[c] == 0;
      FirstStep(s, StepReceive(c), []);
      steps := [StepReceive(c)];
    }
  }

  lemma HandlerAnswers(s: Pending, i: nat) returns (steps: seq<Step>)
    requires Inv(s) && SentBeforeReceived(s) && i < |s.handlers|
    ensures CanRun(s, steps) && Answered(RunFrom(s, steps), s.handlers[i].channel)
    ensures SameDraws(s, RunFrom(s, steps))
  {
    hide NoneLost, DrawsDistinct, TxnID, Without, IdsMatch;
    var c, step := s.handlers[i].channel, StepSend(i);
    StepKeepsInv(s, step);
    assert c in Next(s, step).sent;
    hide ChannelsInOnePlace, CanRun, RunFrom;
    var rest := ReceiveAnswers(Next(s, step), c);
    FirstStep(s, step, rest);
    steps := [step] + rest;
  }

  /** A channel that is in place can still get its answer. */
  lemma InPlaceAnswers(s: Pending, c: nat) returns (steps: seq<Step>)
    requires Inv(s) && SentBeforeReceived(s) && c < |s.owner| && InPlace(s, c)
    ensures CanRun(s, steps) && Answered(RunFrom(s, steps), c) && SameDraws(s, RunFrom(s, steps))
  {
    var tid := TxnID(s.owner[c]);
    hide Inv, TxnID, CanRun, RunFrom, SentBeforeReceived, Answered;
    if tid in s.table && s.table[tid] == c {
      var step := StepTake(tid);
      StepKeepsInv(s, step);
      TakeReceivesNothing(s, tid);
      var rest := HandlerAnswers(Next(s, step), |s.handlers|);
      FirstStep(s, step, rest);
      steps := [step] + rest;
    } else if i :| 0 <= i < |s.handlers| && s.handlers[i].channel == c {
      steps := HandlerAnswers(s, i);
    } else {
      steps := ReceiveAnswers(s, c);
    }
  }

  lemma TakeReceivesNothing(s: Pending, tid: bytes)
    requires SentBeforeReceived(s)
    ensures SentBeforeReceived(Next(s, StepTake(tid)))
  {
  }

  /** In every reachable state a registered channel can still be answered, unless a later
      query was given the same id. */
  lemma AnswerArrives(before: seq<Step>, c: nat) returns (steps: seq<Step>)
    requires CanRun(IDLE, before) && c < |RunFrom(IDLE, before).owner|
    requires !Superseded(RunFrom(IDLE, before), c)
    ensures var s := RunFrom(IDLE, before); CanRun(s, steps) && Answered(RunFrom(s, steps), c)
  {
    IdleInv();
    RunKeepsInv(IDLE, before);
    RunSentBeforeReceived(IDLE, before);
    hide TxnID, InPlace, Superseded, CanRun, RunFrom, Answered;
    steps := InPlaceAnswers(RunFrom(IDLE, before), c);
  }

  /** And a further query can be sent and answered. */
  lemma QueryCanBeAnswered(before: seq<Step>) returns (steps: seq<Step>)
    requires CanRun(IDLE, before)
    ensures var s := RunFrom(IDLE, before);
            && CanRun(s, steps)
            && var s' := RunFrom(s, steps);
               && s'.drawn == s.drawn + 1 && s'.owner == s.owner + [s.drawn + 1] && Answered(s', |s.owner|)
  {
    IdleInv();
    RunKeepsInv(IDLE, before);
    RunSentBeforeReceived(IDLE, before);
    hide Inv, TxnID, Next, Enabled, CanRun, RunFrom, Answered, InPlace, SentBeforeReceived;
    var s := RunFrom(IDLE, before);
    var register := StepRegister(|s.waiting|);
    SendQuery(s);
    var asked := Next(Next(s, StepDraw), register);
    var rest := InPlaceAnswers(asked, |s.owner|);
    FirstStep(Next(s, StepDraw), register, rest);
    FirstStep(s, StepDraw, [register] + rest);
    steps := [StepDraw] + ([register] + rest);
  }

  /** What drawing and registering an id leads to. */
  lemma SendQuery(s: Pending)
    requires Inv(s) && SentBeforeReceived(s)
    ensures Enabled(s, StepDraw) && Enabled(Next(s, StepDraw), StepRegister(|s.waiting|))
    ensures var s' := Next(Next(s, StepDraw), StepRegister(|s.waiting|));
            && Inv(s') && SentBeforeReceived(s') && s'.drawn == s.drawn + 1 && s'.owner == s.owner + [s.drawn + 1]
            && InPlace(s', |s.owner|)
  {
    hide Inv, TxnID, Without;
    StepKeepsInv(s, StepDraw);
    StepKeepsInv(Next(s, StepDraw), StepRegister(|s.waiting|));
  }

  // ---------------------------------------------------------------------
  // Peer lookup
  // ---------------------------------------------------------------------

  const ROUNDS := 3

  /** What a query brings within its timeout. */
  datatype Reply = NoReply | Reply(peers: seq<CompactPeerInfo>, nodes: seq<CompactNodeInfo>)

  function PeersOf(r: Reply): seq<CompactPeerInfo> {
    if r.Reply? then r.peers else []
  }

  function ContactsOf(r: Reply): seq<CompactNodeInfo> {
    if r.Reply? then r.nodes else []
  }

  /** The peers of the replies in the order in which they arrive. */
  function PeersFrom(replies: nat -> Reply, order: seq<nat>): seq<CompactPeerInfo> {
    if order == [] then []
    else PeersFrom(replies, order[..|order| - 1]) + PeersOf(replies(order[|order| - 1]))
  }

  /** The nodes of the replies in the order in which they arrive. */
  function NodesFrom(replies: nat -> Reply, order: seq<nat>): seq<CompactNodeInfo> {
    if order == [] then []
    else NodesFrom(replies, order[..|order| - 1]) + ContactsOf(replies(order[|order| - 1]))
  }

  /** The queries from the m-th up to the n-th, each once, in some order. */
  ghost predicate Arrivals(order: seq<nat>, m: nat, n: nat) {
    Once(order) && forall k :: k in order <==> m <= k < n
  }

  predicate Once(order: seq<nat>) {
    forall i, j | 0 <= i < j < |order| :: order[i] != order[j]
  }

  lemma ArriveNext(replies: nat -> Reply, order: seq<nat>, k: nat)
    requires Once(order) && k !in order
    ensures Once(order + [k])
    ensures PeersFrom(replies, order + [k]) == PeersFrom(replies, order) + PeersOf(replies(k))
    ensures NodesFrom(replies, order + [k]) == NodesFrom(replies, order) + ContactsOf(replies(k))
  {
    assert (order + [k])[..|order|] == order;
  }

  lemma NoneArrived(replies: nat -> Reply)
    ensures Once([]) && PeersFrom(replies, []) == [] && NodesFrom(replies, []) == []
  {
  }

  /** `peers` is made of the peers of the replies: those of the i-th reply to arrive stand
      between two neighbouring starts, whole and in order. */
  ghost predicate PeersInPlace(peers: seq<CompactPeerInfo>, replies: nat -> Reply, order: seq<nat>,
                               starts: seq<nat>)
  {
    && |starts| == |order| + 1 && starts[0] == 0 && starts[|order|] == |peers|
    && forall i | 0 <= i < |order| :: PeersBetween(peers, replies(order[i]), starts[i], starts[i + 1])
  }

  /** From here to there stand the peers of a reply. */
  predicate PeersBetween(peers: seq<CompactPeerInfo>, r: Reply, start: nat, end: nat) {
    start <= end <= |peers| && peers[start..end] == (match r case Reply(ps, _) => ps case NoReply => [])
  }

  lemma PeersOfNext(peers: seq<CompactPeerInfo>, replies: nat -> Reply, order: seq<nat>, starts: seq<nat>, k: nat)
    requires PeersInPlace(peers, replies, order, starts)
    ensures var more := peers + PeersOf(replies(k));
            PeersInPlace(more, replies, order + [k], starts + [|more|])
  {
    var last := PeersOf(replies(k));
    LastPeers(peers, replies(k));
    forall i | 0 <= i < |order|
      ensures PeersBetween(peers + last, replies(order[i]), starts[i], starts[i + 1])
    {
      PeersStay(peers, last, replies(order[i]), starts[i], starts[i + 1]);
    }
    hide PeersBetween, PeersOf;
  }

  lemma PeersStay(peers: seq<CompactPeerInfo>, more: seq<CompactPeerInfo>, r: Reply, start: nat, end: nat)
    requires PeersBetween(peers, r, start, end)
    ensures PeersBetween(peers + more, r, start, end)
  {
    assert (peers + more)[start..end] == peers[start..end];
  }

  lemma LastPeers(peers: seq<CompactPeerInfo>, r: Reply)
    ensures PeersBetween(peers + PeersOf(r), r, |peers|, |peers| + |PeersOf(r)|)
  {
  }

  /** Where the peers of each reply start. */
  lemma {:induction false} PeersStand(replies: nat -> Reply, order: seq<nat>) returns (starts: seq<nat>)
    ensures PeersInPlace(PeersFrom(replies, order), replies, order, starts)
  {
    if order == [] {
      starts := [0];
    } else {
      hide PeersInPlace, PeersOf;
      var front, k := order[..|order| - 1], order[|order| - 1];
      var before := PeersStand(replies, front);
      PeersOfNext(PeersFrom(replies, front), replies, front, before, k);
      assert front + [k] == order;
      starts := before + [|PeersFrom(replies, order)|];
    }
  }

  /** The peers of the replies to the first n queries, counted. */
  ghost function PeerCounts(replies: nat -> Reply, n: nat): multiset<CompactPeerInfo> {
    if n == 0 then multiset{}
    else PeerCounts(replies, n - 1)
         + (match replies(n - 1) case Reply(ps, _) => multiset(ps) case NoReply => multiset{})
  }

  /** Whatever the order of arrival, every peer is there as often as the replies name it. */
  lemma {:induction false} PeersCounted(replies: nat -> Reply, order: seq<nat>, n: nat)
    requires Arrivals(order, 0, n)
    ensures multiset(PeersFrom(replies, order)) == PeerCounts(replies, n)
  {
    hide PeersFrom, PeersOf, PeerCounts, Arrivals;
    SomeArrival(order, n);
    if n == 0 {
      NoneCounted(replies);
    } else {
      var i := ArrivalOf(order, n - 1, 0, n);
      ArrivalsWithout(order, n - 1, i);
      PeersCounted(replies, order[..i] + order[i + 1..], n - 1);
      PeersWithout(replies, order, i);
      CountNext(replies, n - 1);
    }
  }

  lemma SomeArrival(order: seq<nat>, n: nat)
    requires Arrivals(order, 0, n)
    ensures order == [] <==> n == 0
  {
    hide Once;
    if order == [] {
      assert 0 !in order;
    } else {
      assert order[0] in order;
    }
  }

  lemma NoneCounted(replies: nat -> Reply)
    ensures multiset(PeersFrom(replies, [])) == PeerCounts(replies, 0)
  {
  }

  lemma CountNext(replies: nat -> Reply, n: nat)
    ensures PeerCounts(replies, n + 1) == PeerCounts(replies, n) + multiset(PeersOf(replies(n)))
  {
  }

  lemma ArrivalOf(order: seq<nat>, k: nat, m: nat, n: nat) returns (i: nat)
    requires Arrivals(order, m, n) && m <= k < n
    ensures i < |order| && order[i] == k
  {
    assert k in order;
    i :| 0 <= i < |order| && order[i] == k;
  }

  lemma PeersWithout(replies: nat -> Reply, order: seq<nat>, i: nat)
    requires i < |order|
    ensures multiset(PeersFrom(replies, order))
         == multiset(PeersFrom(replies, order[..i] + order[i + 1..])) + multiset(PeersOf(replies(order[i])))
  {
    hide PeersFrom, PeersOf;
    var a, k, b := order[..i], order[i], order[i + 1..];
    assert order == a + [k] + b;
    PeersConcat(replies, a, b);
    PeersConcat(replies, a + [k], b);
    PeersConcat(replies, a, [k]);
    PeersOfOne(replies, k);
  }

  lemma PeersOfOne(replies: nat -> Reply, k: nat)
    ensures PeersFrom(replies, [k]) == PeersOf(replies(k))
  {
    assert [k][..0] == [];
  }

  lemma ArrivalsWithout(order: seq<nat>, n: nat, i: nat)
    requires Arrivals(order, 0, n + 1) && i < |order| && order[i] == n
    ensures Arrivals(order[..i] + order[i + 1..], 0, n)
  {
    var rest := order[..i] + order[i + 1..];
    forall k: nat ensures k in rest <==> 0 <= k < n {
      if k < n {
        assert k in order;
        var j :| 0 <= j < |order| && order[j] == k;
        assert rest[if j < i then j else j - 1] == k;
      }
      if k in rest {
        var j :| 0 <= j < |rest| && rest[j] == k;
        var l := if j < i then j else j + 1;
        assert order[l] == k && l != i && k in order;
      }
    }
  }

  // Table changes

  /** The table after some events. */
  function After(local: NodeID, t: Table, events: seq<Event>): Table {
    if events == [] then t
    else TableSpec.Step(local, After(local, t, events[..|events| - 1]), events[|events| - 1])
  }

  lemma {:induction false} AfterConcat(local: NodeID, t: Table, a: seq<Event>, b: seq<Event>)
    ensures After(local, t, a + b) == After(local, After(local, t, a), b)
  {
    hide TableSpec.Step;
    if b == [] {
      assert a + b == a;
    } else {
      AfterConcat(local, t, a, b[..|b| - 1]);
      assert (a + b)[..|a + b| - 1] == a + b[..|b| - 1];
    }
  }

  lemma AfterOne(local: NodeID, t: Table, e: Event)
    ensures After(local, t, [e]) == TableSpec.Step(local, t, e)
  {
    assert [e][..0] == [];
  }

  /** The nodes are inserted by these events, in order, among whatever else happens. */
  predicate InsertedAmong(nodes: seq<CompactNodeInfo>, events: seq<Event>)
    decreases |events|
  {
    if nodes == [] then true
    else if events == [] then false
    else
      var (n, e) := (nodes[|nodes| - 1], events[|events| - 1]);
      || (e.op == OpInsert(n.id, n.ip, n.port) && InsertedAmong(nodes[..|nodes| - 1], events[..|events| - 1]))
      || InsertedAmong(nodes, events[..|events| - 1])
  }

  lemma {:induction false} InsertedMeanwhile(nodes: seq<CompactNodeInfo>, events: seq<Event>, more: seq<Event>)
    requires InsertedAmong(nodes, events)
    ensures InsertedAmong(nodes, events + more)
  {
    if more == [] {
      assert events + more == events;
    } else {
      InsertedMeanwhile(nodes, events, more[..|more| - 1]);
      assert (events + more)[..|events + more| - 1] == events + more[..|more| - 1];
    }
  }

  predicate IsInserted(n: CompactNodeInfo, events: seq<Event>) {
    exists e | e in events :: e.op == OpInsert(n.id, n.ip, n.port)
  }

  lemma {:induction false} EachInserted(nodes: seq<CompactNodeInfo>, events: seq<Event>)
    requires InsertedAmong(nodes, events)
    ensures forall n | n in nodes :: IsInserted(n, events)
    decreases |events|
  {
    if nodes != [] {
      var front, e := events[..|events| - 1], events[|events| - 1];
      assert forall x :: x in front ==> x in events;
      if InsertedAmong(nodes, front) {
        EachInserted(nodes, front);
      } else {
        var nodeFront, last := nodes[..|nodes| - 1], nodes[|nodes| - 1];
        EachInserted(nodeFront, front);
        assert e in events;
        assert forall n :: n in nodes ==> n in nodeFront || n == last;
      }
    }
  }

  lemma InsertedNext(nodes: seq<CompactNodeInfo>, n: CompactNodeInfo, events: seq<Event>, e: Event)
    requires InsertedAmong(nodes, events) && e.op == OpInsert(n.id, n.ip, n.port)
    ensures InsertedAmong(nodes + [n], events + [e])
  {
    assert (nodes + [n])[..|nodes|] == nodes && (events + [e])[..|events|] == events;
  }

  /** Whatever other goroutines do to the table meanwhile. */
  method Meanwhile(rt: RoutingTable) returns (ghost events: seq<Event>)
    requires rt.Valid()
    modifies rt.buckets
    ensures rt.Valid() && rt.Contents() == After(rt.localID, old(rt.Contents()), events)
  {
    hide TableInv, Insert, Touch, Remove;
    events := [];
    var n: nat := *;
    while n > 0
      invariant rt.Valid() && rt.Contents() == After(rt.localID, old(rt.Contents()), events)
    {
      var id: NodeID := *;
      var ip: bytes := *;
      var port: int, now: int := *, *;
      var which: nat := *;
      ghost var e: Event;
      if which == 0 {
        e := Event(OpInsert(id, ip, port), now);
        var _ := rt.Insert(id, ip, port, now);
      } else if which == 1 {
        e := Event(OpTouch(id), now);
        rt.Touch(id, now);
      } else {
        e := Event(OpRemove(id), now);
        rt.Remove(id);
      }
      assert (events + [e])[..|events|] == events;
      events := events + [e];
      n := n - 1;
    }
  }

  /** The loop that adds the nodes found in a round. */
  method InsertNodes(rt: RoutingTable, newNodes: seq<CompactNodeInfo>) returns (ghost events: seq<Event>)
    requires rt.Valid()
    modifies rt.buckets
    ensures rt.Valid() && rt.Contents() == After(rt.localID, old(rt.Contents()), events)
    ensures InsertedAmong(newNodes, events)
  {
    hide TableInv, Insert, After, InsertedAmong;
    ghost var start := rt.Contents();
    events := Meanwhile(rt);
    NothingToInsert(events);
    for i := 0 to |newNodes|
      invariant rt.Valid() && rt.Contents() == After(rt.localID, start, events)
      invariant InsertedAmong(newNodes[..i], events)
    {
      var n := newNodes[i];
      var now: int := *;
      ghost var e := Event(OpInsert(n.id, n.ip, n.port), now);
      var _ := rt.Insert(n.id, n.ip, n.port, now);
      AfterOne(rt.localID, After(rt.localID, start, events), e);
      AfterConcat(rt.localID, start, events, [e]);
      InsertedNext(newNodes[..i], n, events, e);
      assert newNodes[..i + 1] == newNodes[..i] + [n];
      ghost var more := Meanwhile(rt);
      AfterConcat(rt.localID, start, events + [e], more);
      InsertedMeanwhile(newNodes[..i + 1], events + [e], more);
      events := events + [e] + more;
    }
    assert newNodes[..|newNodes|] == newNodes;
  }

  lemma NothingToInsert(events: seq<Event>)
    ensures InsertedAmong([], events)
  {
  }

  // Rounds

  predicate Distinct(ids: seq<NodeID>) {
    forall i, j | 0 <= i < j < |ids| :: ids[i] != ids[j]
  }

  /** `queried` holds the keys of exactly these ids. */
  ghost predicate KeysOf(queried: set<string>, ids: seq<NodeID>) {
    forall id: NodeID :: id in ids <==> Hex(id) in queried
  }

  predicate IsAmong(id: NodeID, contacts: seq<Contact>) {
    exists c | c in contacts :: c.id == id
  }

  /** Picks the contacts of a round that were not asked before. */
  method PickQueries(closest: seq<Contact>, queriedBefore: set<string>, queriesBefore: seq<NodeID>)
    returns (queried: set<string>, queries: seq<NodeID>)
    requires Distinct(queriesBefore) && KeysOf(queriedBefore, queriesBefore)
    ensures Distinct(queries) && KeysOf(queried, queries)
    ensures queriesBefore <= queries && |queries| <= |queriesBefore| + |closest|
    ensures forall c | c in closest :: c.id in queries
    ensures forall i | |queriesBefore| <= i < |queries| :: IsAmong(queries[i], closest)
  {
    hide Hex;
    queried, queries := queriedBefore, queriesBefore;
    for i := 0 to |closest|
      invariant Distinct(queries) && KeysOf(queried, queries)
      invariant queriesBefore <= queries && |queries| <= |queriesBefore| + i
      invariant forall j | 0 <= j < i :: closest[j].id in queries
      invariant forall j | |queriesBefore| <= j < |queries| :: IsAmong(queries[j], closest)
    {
      var nodeKey := Hex(closest[i].id);
      if nodeKey in queried {
        continue;
      }
      OnlyThisKey(closest[i].id);
      queried := queried + {nodeKey};
      queries := queries + [closest[i].id];
    }
  }

  /** The goroutines of a round: each adds the peers of its reply and then the nodes, in
      two locked regions; the regions of different goroutines come in any order. */
  method Collect(replies: nat -> Reply, m: nat, n: nat)
    returns (peers: seq<CompactPeerInfo>, newNodes: seq<CompactNodeInfo>,
             ghost peerOrder: seq<nat>, ghost starts: seq<nat>, ghost nodeOrder: seq<nat>)
    requires m <= n
    ensures Arrivals(peerOrder, m, n) && peers == PeersFrom(replies, peerOrder)
    ensures PeersInPlace(peers, replies, peerOrder, starts)
    ensures Arrivals(nodeOrder, m, n) && newNodes == NodesFrom(replies, nodeOrder)
    ensures forall k: nat | m <= k < n && replies(k).Reply? ::
              forall node | node in replies(k).nodes :: node in newNodes
  {
    hide PeersOf, ContactsOf, PeersFrom, NodesFrom, Once, PeersInPlace;
    NoneArrived(replies);
    peers, newNodes, peerOrder, nodeOrder := [], [], [], [];
    var running: set<nat>, halfway: set<nat> := {}, {};
    for k := m to n
      invariant forall j :: j in running <==> m <= j < k
    {
      running := running + {k};
    }
    while running + halfway != {}
      invariant running !! halfway && forall k | k in running + halfway :: m <= k < n
      invariant forall k :: k in peerOrder <==> m <= k < n && k !in running
      invariant forall k :: k in nodeOrder <==> m <= k < n && k !in running && k !in halfway
      invariant Once(peerOrder) && Once(nodeOrder)
      invariant peers == PeersFrom(replies, peerOrder) && newNodes == NodesFrom(replies, nodeOrder)
      decreases running, halfway
    {
      var k: nat :| k in running + halfway;
      if k in running {
        ArriveNext(replies, peerOrder, k);
        peers := peers + PeersOf(replies(k));
        peerOrder := peerOrder + [k];
        running, halfway := running - {k}, halfway + {k};
      } else {
        ArriveNext(replies, nodeOrder, k);
        newNodes := newNodes + ContactsOf(replies(k));
        nodeOrder := nodeOrder + [k];
        halfway := halfway - {k};
      }
    }
    starts := PeersStand(replies, peerOrder);
    forall k: nat | m <= k < n && replies(k).Reply?
      ensures forall node | node in replies(k).nodes :: node in newNodes
    {
      NodesOfReply(replies, nodeOrder, k);
    }
  }

  /** Record of a round: the table it starts from, the nearest contacts found there, the
      ids asked, the order in which the nodes of the replies arrive, and the changes of the
      table until the next round. */
  datatype Round = Round(
    before: Table, answer: seq<Contact>, asked: seq<NodeID>, order: seq<nat>, changes: seq<Event>)

  /** The ids asked in some rounds. */
  function AskedIn(rounds: seq<Round>): seq<NodeID> {
    if rounds == [] then [] else AskedIn(rounds[..|rounds| - 1]) + rounds[|rounds| - 1].asked
  }

  /** No reply to the first n queries names a peer. */
  ghost predicate NoPeers(replies: nat -> Reply, n: nat) {
    forall k: nat | k < n :: PeersOf(replies(k)) == []
  }

  /** A round after `first` queries finds the nearest contacts of its table and asks nobody
      else; without peers so far, the nodes of its replies are inserted among the other
      changes. */
  ghost predicate RoundRight(target: NodeID, replies: nat -> Reply, first: nat, r: Round) {
    && IsClosest(r.answer, Flatten(r.before), target, K)
    && (forall i | 0 <= i < |r.asked| :: IsAmong(r.asked[i], r.answer))
    && Arrivals(r.order, first, first + |r.asked|)
    && (NoPeers(replies, first + |r.asked|) ==> InsertedAmong(NodesFrom(replies, r.order), r.changes))
  }

  /** The rounds of a lookup: each is right, leaves none of its nearest contacts unasked,
      and starts from the table the round before ended with, which found no peers. */
  ghost predicate IsLookup(local: NodeID, target: NodeID, replies: nat -> Reply, rounds: seq<Round>) {
    rounds == []
    || (var (earlier, last) := (rounds[..|rounds| - 1], rounds[|rounds| - 1]);
        && IsLookup(local, target, replies, earlier)
        && RoundRight(target, replies, |AskedIn(earlier)|, last)
        && (forall c | c in last.answer :: c.id in AskedIn(rounds))
        && (earlier != [] ==>
              && NoPeers(replies, |AskedIn(earlier)|)
              && last.before == After(local, earlier[|earlier| - 1].before, earlier[|earlier| - 1].changes)))
  }

  /** The nodes of every reply from the `first`-th query up to the n-th are inserted. */
  ghost predicate NodesInserted(replies: nat -> Reply, first: nat, n: nat, changes: seq<Event>) {
    forall k: nat | first <= k < n && replies(k).Reply? ::
      forall node | node in replies(k).nodes :: IsInserted(node, changes)
  }

  /** Every round but the last inserts the nodes of all its replies; the last one does too
      unless some reply named a peer. */
  ghost predicate RoundsInsert(replies: nat -> Reply, rounds: seq<Round>, peersFound: bool) {
    forall j | 0 <= j < |rounds| && (j < |rounds| - 1 || !peersFound) ::
      NodesInserted(replies, |AskedIn(rounds[..j])|, |AskedIn(rounds[..j])| + |rounds[j].asked|, rounds[j].changes)
  }

  lemma {:induction false} NodesOfReply(replies: nat -> Reply, order: seq<nat>, k: nat)
    requires k in order && replies(k).Reply?
    ensures forall node | node in replies(k).nodes :: node in NodesFrom(replies, order)
  {
    var front, last := order[..|order| - 1], order[|order| - 1];
    if k != last {
      NodesOfReply(replies, front, k);
    }
  }

  lemma RoundInserts(target: NodeID, replies: nat -> Reply, first: nat, r: Round)
    requires RoundRight(target, replies, first, r) && NoPeers(replies, first + |r.asked|)
    ensures NodesInserted(replies, first, first + |r.asked|, r.changes)
  {
    hide IsClosest, IsAmong, InsertedAmong, NodesFrom, IsInserted, NoPeers;
    EachInserted(NodesFrom(replies, r.order), r.changes);
    forall k: nat | first <= k < first + |r.asked| && replies(k).Reply?
      ensures forall node | node in replies(k).nodes :: node in NodesFrom(replies, r.order)
    {
      NodesOfReply(replies, r.order, k);
    }
  }

  lemma AskedNext(earlier: seq<Round>, last: Round)
    ensures AskedIn(earlier + [last]) == AskedIn(earlier) + last.asked
  {
    assert (earlier + [last])[..|earlier|] == earlier;
  }

  lemma {:induction false} LastRound(local: NodeID, target: NodeID, replies: nat -> Reply, rounds: seq<Round>)
    requires rounds != [] && IsLookup(local, target, replies, rounds)
    ensures var (earlier, last) := (rounds[..|rounds| - 1], rounds[|rounds| - 1]);
            && IsLookup(local, target, replies, earlier)
            && RoundRight(target, replies, |AskedIn(earlier)|, last)
            && NoPeers(replies, |AskedIn(earlier)|) && rounds == earlier + [last]
  {
    hide RoundRight, NoPeers, AskedIn, After;
    NobodyAsked(replies);
  }

  lemma NobodyAsked(replies: nat -> Reply)
    ensures NoPeers(replies, |AskedIn([])|)
  {
  }

  lemma EarlierInsert(replies: nat -> Reply, earlier: seq<Round>, last: Round)
    requires RoundsInsert(replies, earlier, false)
    ensures RoundsInsert(replies, earlier + [last], true)
    ensures NodesInserted(replies, |AskedIn(earlier)|, |AskedIn(earlier)| + |last.asked|, last.changes) ==>
              RoundsInsert(replies, earlier + [last], false)
  {
    hide NodesInserted, AskedIn;
    var rounds := earlier + [last];
    assert rounds[..|earlier|] == earlier;
    forall j | 0 <= j < |earlier| ensures rounds[..j] == earlier[..j] && rounds[j] == earlier[j] {
    }
  }

  lemma {:induction false} LookupInserts(local: NodeID, target: NodeID, replies: nat -> Reply, rounds: seq<Round>)
    requires IsLookup(local, target, replies, rounds)
    ensures RoundsInsert(replies, rounds, true)
    ensures NoPeers(replies, |AskedIn(rounds)|) ==> RoundsInsert(replies, rounds, false)
  {
    if rounds != [] {
      hide IsLookup, RoundRight, NoPeers, RoundsInsert, NodesInserted, AskedIn, After;
      var earlier, last := rounds[..|rounds| - 1], rounds[|rounds| - 1];
      LastRound(local, target, replies, rounds);
      AskedNext(earlier, last);
      LookupInserts(local, target, replies, earlier);
      EarlierInsert(replies, earlier, last);
      if NoPeers(replies, |AskedIn(rounds)|) {
        RoundInserts(target, replies, |AskedIn(earlier)|, last);
      }
    }
  }

  lemma LookupGoesOn(local: NodeID, target: NodeID, replies: nat -> Reply, rounds: seq<Round>, last: Round)
    requires IsLookup(local, target, replies, rounds)
    requires RoundRight(target, replies, |AskedIn(rounds)|, last)
    requires forall c | c in last.answer :: c.id in AskedIn(rounds) + last.asked
    requires rounds != [] ==>
               && NoPeers(replies, |AskedIn(rounds)|)
               && last.before == After(local, rounds[|rounds| - 1].before, rounds[|rounds| - 1].changes)
    ensures IsLookup(local, target, replies, rounds + [last])
    ensures AskedIn(rounds + [last]) == AskedIn(rounds) + last.asked
  {
    hide RoundRight, NoPeers, After;
    assert (rounds + [last])[..|rounds|] == rounds;
  }

  /** The order of arrival does not matter for whether any peer arrives. */
  lemma {:induction false} NoPeersArrive(replies: nat -> Reply, order: seq<nat>)
    ensures PeersFrom(replies, order) == [] <==> forall k | k in order :: PeersOf(replies(k)) == []
  {
    if order != [] {
      var front, last := order[..|order| - 1], order[|order| - 1];
      NoPeersArrive(replies, front);
      assert forall k :: k in order <==> k in front || k == last;
    }
  }

  lemma {:induction false} PeersConcat(replies: nat -> Reply, a: seq<nat>, b: seq<nat>)
    ensures PeersFrom(replies, a + b) == PeersFrom(replies, a) + PeersFrom(replies, b)
  {
    if b == [] {
      assert a + b == a;
    } else {
      hide PeersOf;
      var front, last := b[..|b| - 1], PeersOf(replies(b[|b| - 1]));
      PeersConcat(replies, a, front);
      assert (a + b)[..|a + b| - 1] == a + front;
      ConcatAssociative(PeersFrom(replies, a), PeersFrom(replies, front), last);
    }
  }

  lemma ArrivalsConcat(a: seq<nat>, b: seq<nat>, m: nat, n: nat)
    requires m <= n && Arrivals(a, 0, m) && Arrivals(b, m, n)
    ensures Arrivals(a + b, 0, n)
  {
    forall i, j | 0 <= i < j < |a + b| ensures (a + b)[i] != (a + b)[j] {
      assert i < |a| ==> a[i] in a;
      assert j >= |a| ==> b[j - |a|] in b;
    }
  }

  /** The lookup so far: its rounds from table `start` on, the ids asked, the order in which
      peers arrived, and the table it left. */
  ghost predicate Found(local: NodeID, target: NodeID, replies: nat -> Reply, start: Table,
                        queries: seq<NodeID>, order: seq<nat>, rounds: seq<Round>, now: Table)
  {
    && IsLookup(local, target, replies, rounds) && AskedIn(rounds) == queries
    && Arrivals(order, 0, |queries|)
    && (rounds == [] ==> now == start)
    && (rounds != [] ==>
          && rounds[0].before == start
          && now == After(local, rounds[|rounds| - 1].before, rounds[|rounds| - 1].changes))
  }

  lemma FoundGoesOn(local: NodeID, target: NodeID, replies: nat -> Reply, start: Table,
                    queries: seq<NodeID>, order: seq<nat>, rounds: seq<Round>, now: Table,
                    r: Round, queries': seq<NodeID>, arrived: seq<nat>)
    requires Found(local, target, replies, start, queries, order, rounds, now)
    requires NoPeers(replies, |queries|) && queries <= queries'
    requires r.before == now && r.asked == queries'[|queries|..]
    requires RoundRight(target, replies, |queries|, r)
    requires forall c | c in r.answer :: c.id in queries'
    requires Arrivals(arrived, |queries|, |queries'|)
    ensures Found(local, target, replies, start, queries', order + arrived, rounds + [r],
                  After(local, now, r.changes))
  {
    hide IsLookup, RoundRight, NoPeers, Arrivals, After;
    assert queries + r.asked == queries';
    LookupGoesOn(local, target, replies, rounds, r);
    ArrivalsConcat(order, arrived, |queries|, |queries'|);
  }

  /** One round of queries and replies. */
  method AskRound(closest: seq<Contact>, replies: nat -> Reply, queriedBefore: set<string>,
                  queriesBefore: seq<NodeID>)
    returns (queried: set<string>, queries: seq<NodeID>, peers: seq<CompactPeerInfo>,
             newNodes: seq<CompactNodeInfo>, ghost arrived: seq<nat>, ghost order: seq<nat>)
    requires Distinct(queriesBefore) && KeysOf(queriedBefore, queriesBefore)
    ensures Distinct(queries) && KeysOf(queried, queries)
    ensures queriesBefore <= queries && |queries| <= |queriesBefore| + |closest|
    ensures forall c | c in closest :: c.id in queries
    ensures forall i | |queriesBefore| <= i < |queries| :: IsAmong(queries[i], closest)
    ensures Arrivals(arrived, |queriesBefore|, |queries|) && peers == PeersFrom(replies, arrived)
    ensures Arrivals(order, |queriesBefore|, |queries|) && newNodes == NodesFrom(replies, order)
  {
    hide Distinct, KeysOf, IsAmong, Arrivals, PeersFrom, NodesFrom;
    queried, queries := PickQueries(closest, queriedBefore, queriesBefore);
    ghost var starts;
    peers, newNodes, arrived, starts, order := Collect(replies, |queriesBefore|, |queries|);
  }

  /** FindPeers: up to three rounds of asking the nearest contacts not asked before.  The
      i-th query sent gets `replies(i)`, at any time.  `queries` lists the ids asked,
      `peerOrder` the order in which peers arrive, `starts` where those of each reply start
      in the result, `earlier` the changes of the table before the first round. */
  method FindPeers(rt: RoutingTable, infoHash: NodeID, replies: nat -> Reply)
    returns (allPeers: seq<CompactPeerInfo>, queries: seq<NodeID>,
             ghost peerOrder: seq<nat>, ghost starts: seq<nat>, ghost earlier: seq<Event>,
             ghost rounds: seq<Round>)
    requires rt.Valid()
    modifies rt.buckets
    ensures rt.Valid()
    ensures Distinct(queries) && |queries| <= ROUNDS * K
    ensures Arrivals(peerOrder, 0, |queries|) && PeersInPlace(allPeers, replies, peerOrder, starts)
    ensures multiset(allPeers) == PeerCounts(replies, |queries|)
    ensures RoundsInsert(replies, rounds, allPeers != [])
    ensures Found(rt.localID, infoHash, replies, After(rt.localID, old(rt.Contents()), earlier),
                  queries, peerOrder, rounds, rt.Contents())
    ensures 1 <= |rounds| <= ROUNDS
    ensures |rounds| == ROUNDS || allPeers != [] || rounds[|rounds| - 1].answer == []
  {
    hide TableInv, Hex, Flatten, IsClosest, InsertedAmong, PeersFrom, NodesFrom, Found, Distinct, KeysOf,
      Arrivals, After, NoPeers, PeersOf, IsAmong, RoundRight, PeersInPlace, RoundsInsert, PeerCounts;
    allPeers, queries, peerOrder, rounds := [], [], [], [];
    var queried: set<string> := {};
    earlier := Meanwhile(rt);
    ghost var start := rt.Contents();
    NothingFound(rt.localID, infoHash, replies, start);
    var round := 0;
    while round < ROUNDS
      invariant rt.Valid() && round <= ROUNDS
      invariant Distinct(queries) && KeysOf(queried, queries)
      invariant |rounds| == round && |queries| <= round * K
      invariant allPeers == PeersFrom(replies, peerOrder) == [] && NoPeers(replies, |queries|)
      invariant Found(rt.localID, infoHash, replies, start, queries, peerOrder, rounds, rt.Contents())
    {
      ghost var now, asked := rt.Contents(), queries;
      var answer := rt.FindClosest(infoHash, K);
      var closest := answer.value;
      AtMostCount(closest, Flatten(now), infoHash, K);
      if |closest| == 0 {
        EmptyRound(rt.localID, infoHash, replies, |queries|, now);
        FoundGoesOn(rt.localID, infoHash, replies, start, queries, peerOrder, rounds, now,
                    Round(now, [], [], [], []), queries, []);
        assert peerOrder + [] == peerOrder;
        rounds := rounds + [Round(now, [], [], [], [])];
        break;
      }
      var peers, newNodes;
      ghost var arrived, order;
      queried, queries, peers, newNodes, arrived, order := AskRound(closest, replies, queried, queries);
      PeersSoFar(replies, peerOrder, arrived, |asked|, |queries|);
      allPeers := allPeers + peers;
      ghost var changes := Meanwhile(rt);
      if |allPeers| > 0 {
        ghost var r := Round(now, closest, queries[|asked|..], order, changes);
        RoundDone(infoHash, replies, asked, queries, r);
        FoundGoesOn(rt.localID, infoHash, replies, start, asked, peerOrder, rounds, now, r, queries, arrived);
        rounds, peerOrder := rounds + [r], peerOrder + arrived;
        break;
      }
      ghost var more := InsertNodes(rt, newNodes);
      AfterConcat(rt.localID, now, changes, more);
      InsertedLater(newNodes, changes, more);
      ghost var r := Round(now, closest, queries[|asked|..], order, changes + more);
      RoundDone(infoHash, replies, asked, queries, r);
      FoundGoesOn(rt.localID, infoHash, replies, start, asked, peerOrder, rounds, now, r, queries, arrived);
      rounds, peerOrder := rounds + [r], peerOrder + arrived;
      round := round + 1;
    }
    assert allPeers == PeersFrom(replies, peerOrder);
    starts := LookupResult(rt.localID, infoHash, replies, start, queries, peerOrder, rounds, rt.Contents());
  }

  /** What a lookup that sent these queries returns and inserts. */
  lemma LookupResult(local: NodeID, target: NodeID, replies: nat -> Reply, start: Table,
                     queries: seq<NodeID>, order: seq<nat>, rounds: seq<Round>, now: Table)
    returns (starts: seq<nat>)
    requires Found(local, target, replies, start, queries, order, rounds, now)
    ensures Arrivals(order, 0, |queries|) && PeersInPlace(PeersFrom(replies, order), replies, order, starts)
    ensures multiset(PeersFrom(replies, order)) == PeerCounts(replies, |queries|)
    ensures RoundsInsert(replies, rounds, PeersFrom(replies, order) != [])
  {
    hide PeersFrom, PeersOf, PeersInPlace, PeerCounts, IsLookup, RoundsInsert, After;
    starts := PeersStand(replies, order);
    PeersCounted(replies, order, |queries|);
    LookupInserts(local, target, replies, rounds);
    NoPeersArrive(replies, order);
  }

  lemma RoundDone(target: NodeID, replies: nat -> Reply, asked: seq<NodeID>, queries: seq<NodeID>, r: Round)
    requires IsClosest(r.answer, Flatten(r.before), target, K) && asked <= queries
    requires r.asked == queries[|asked|..] && Arrivals(r.order, |asked|, |queries|)
    requires forall i | |asked| <= i < |queries| :: IsAmong(queries[i], r.answer)
    requires NoPeers(replies, |queries|) ==> InsertedAmong(NodesFrom(replies, r.order), r.changes)
    ensures RoundRight(target, replies, |asked|, r)
  {
    hide IsClosest, Flatten, Arrivals, IsAmong, NoPeers, InsertedAmong, NodesFrom;
  }

  lemma PeersSoFar(replies: nat -> Reply, order: seq<nat>, arrived: seq<nat>, m: nat, n: nat)
    requires m <= n && NoPeers(replies, m) && Arrivals(arrived, m, n) && PeersFrom(replies, order) == []
    ensures PeersFrom(replies, order + arrived) == PeersFrom(replies, arrived)
    ensures PeersFrom(replies, arrived) == [] <==> NoPeers(replies, n)
  {
    hide PeersFrom, PeersOf;
    PeersConcat(replies, order, arrived);
    NoPeersArrive(replies, arrived);
  }

  lemma {:induction false} InsertedLater(nodes: seq<CompactNodeInfo>, changes: seq<Event>, events: seq<Event>)
    requires InsertedAmong(nodes, events)
    ensures InsertedAmong(nodes, changes + events)
    decreases |events|
  {
    if events == [] {
      NothingToInsert(changes);
    } else {
      var front := events[..|events| - 1];
      assert (changes + events)[..|changes + events| - 1] == changes + front;
      if InsertedAmong(nodes, front) {
        InsertedLater(nodes, changes, front);
      } else if nodes != [] {
        InsertedLater(nodes[..|nodes| - 1], changes, front);
      }
    }
  }

  lemma EmptyRound(local: NodeID, target: NodeID, replies: nat -> Reply, first: nat, t: Table)
    requires IsClosest([], Flatten(t), target, K)
    ensures RoundRight(target, replies, first, Round(t, [], [], [], [])) && After(local, t, []) == t
    ensures Arrivals([], first, first)
  {
    hide IsClosest, Flatten;
    assert NodesFrom(replies, []) == [];
  }

  lemma NothingFound(local: NodeID, target: NodeID, replies: nat -> Reply, start: Table)
    ensures Distinct([]) && KeysOf({}, []) && PeersFrom(replies, []) == [] && NoPeers(replies, 0)
    ensures Found(local, target, replies, start, [], [], [], start)
  {
  }

  lemma AtMostCount(r: seq<Contact>, all: seq<Contact>, target: NodeID, count: nat)
    requires IsClosest(r, all, target, count)
    ensures |r| <= count
  {
  }

  lemma OnlyThisKey(id: NodeID)
    ensures forall other: NodeID | Hex(other) == Hex(id) :: other == id
  {
    forall other: NodeID | Hex(other) == Hex(id) ensures other == id {
      HexInjective(other, id);
    }
  }
}
