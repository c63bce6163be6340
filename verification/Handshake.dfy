/**
 The three-way handshake of one connecting client and one accepting listener over a
 network that may lose, repeat and reorder packets: any packet ever sent may arrive any
 number of times.
 */
module Handshake {
  import opened Options
  import opened Ring
  import Transfer
  import SlidingWindows
  import ReadBuffers
  import TransferSafety

  datatype Flag = Syn | SynAck | Ack | OtherFlag

  datatype Pkt = Pkt(flag: Flag, seqNum: nat, ackNum: nat)

  /** The numbers a socket is set up with. */
  datatype Numbers = Numbers(baseSeq: nat, baseAck: nat, cumReadNXT: nat, cumWriteUNA: nat)

  datatype Client = SynSent(tries: nat) | ClientUp(nums: Numbers) | ClientFailed

  datatype Server = Listening | SynReceived(nums: Numbers) | ServerUp(nums: Numbers)

  datatype State = State(client: Client, server: Server, toServer: set<Pkt>, toClient: set<Pkt>)

  datatype Event =
    | SendSyn
    | ClientTimeout
    | ClientReceive(p: Pkt)
    | ServerReceive(p: Pkt)
    | ClientSends(p: Pkt)      // data and acknowledgements once connected
    | ServerSends(p: Pkt)

  function Succ(n: nat): (r: nat)
    ensures r < UINT32
  {
    (n + 1) % UINT32
  }

  function Pred(n: nat): (r: nat)
    ensures r < UINT32
  {
    (n - 1) % UINT32
  }

  /** A third unsuccessful try gives up. */
  function Retry(tries: nat): (c: Client) {
    if tries + 1 >= 3 then ClientFailed else SynSent(tries + 1)
  }

  ghost predicate Step(s: State, ev: Event, s': State, iss: nat, irs: nat) {
    match ev
    case SendSyn =>
      s.client.SynSent? && s' == s.(toServer := s.toServer + {Pkt(Syn, iss, 0)})
    case ClientTimeout =>
      s.client.SynSent? && s' == s.(client := Retry(s.client.tries))
    case ClientReceive(p) =>
      && s.client.SynSent? && p in s.toClient
      && if p.flag == SynAck then
           s' == s.(client := ClientUp(Numbers(Pred(p.ackNum), p.seqNum, Succ(p.seqNum), p.ackNum)),
                    toServer := s.toServer + {Pkt(Ack, p.ackNum, Succ(p.seqNum))})
         else
           s' == s.(client := Retry(s.client.tries))
    case ServerReceive(p) =>
      && p in s.toServer
      && (match s.server
          case Listening =>
            if p.flag == Syn then
              s' == s.(server := SynReceived(Numbers(irs, p.seqNum, Succ(p.seqNum), Succ(irs))),
                       toClient := s.toClient + {Pkt(SynAck, irs, Succ(p.seqNum))})
            else s' == s
          case SynReceived(nums) =>
            if p.flag == Ack then s' == s.(server := ServerUp(nums)) else s' == s
          case ServerUp(_) => s' == s)
    case ClientSends(p) =>
      s.client.ClientUp? && p.flag != Syn && p.flag != SynAck && s' == s.(toServer := s.toServer + {p})
    case ServerSends(p) =>
      s.server.ServerUp? && p.flag != Syn && p.flag != SynAck && s' == s.(toClient := s.toClient + {p})
  }

  ghost predicate Init(s: State) {
    s == State(SynSent(0), Listening, {}, {})
  }

  ghost predicate Inv(s: State, iss: nat, irs: nat) {
    && (forall p :: p in s.toServer && p.flag == Syn ==> p.seqNum == iss)
    && (forall p :: p in s.toServer && p.flag == Ack ==> s.client.ClientUp?)
    && (forall p :: p in s.toClient && p.flag == SynAck ==> p == Pkt(SynAck, irs, Succ(iss)) && !s.server.Listening?)
    && (s.client.ClientUp? ==> s.client.nums == Numbers(iss, irs, Succ(irs), Succ(iss)) && !s.server.Listening?)
    && (!s.server.Listening? ==> s.server.nums == Numbers(irs, iss, Succ(iss), Succ(irs)))
    && (s.server.ServerUp? ==> s.client.ClientUp?)
  }

  ghost predicate Run(states: seq<State>, events: seq<Event>, iss: nat, irs: nat) {
    && iss < UINT32 && irs < UINT32
    && |states| == |events| + 1 && Init(states[0])
    && forall i :: 0 <= i < |events| ==> Step(states[i], events[i], states[i + 1], iss, irs)
  }

  lemma StepInv(s: State, ev: Event, s': State, iss: nat, irs: nat)
    requires iss < UINT32 && irs < UINT32 && Inv(s, iss, irs) && Step(s, ev, s', iss, irs)
    ensures Inv(s', iss, irs)
  {
    assert Pred(Succ(iss)) == iss;
  }

  lemma {:induction false} RunInv(states: seq<State>, events: seq<Event>, iss: nat, irs: nat, i: nat)
    requires Run(states, events, iss, irs) && i < |states|
    ensures Inv(states[i], iss, irs)
  {
    if i > 0 {
      RunInv(states, events, iss, irs, i - 1);
      StepInv(states[i - 1], events[i - 1], states[i], iss, irs);
    }
  }

  /**
   Whenever both ends are ESTABLISHED their numbers match crosswise, and the listener is
   never ESTABLISHED before the client, whatever was lost, repeated or reordered.
   */
  lemma Agreement(states: seq<State>, events: seq<Event>, iss: nat, irs: nat, i: nat)
    requires Run(states, events, iss, irs) && i < |states|
    ensures states[i].server.ServerUp? ==> states[i].client.ClientUp?
    ensures states[i].server.ServerUp? ==>
              var c, s := states[i].client.nums, states[i].server.nums;
              && c.baseSeq == s.baseAck == iss && c.baseAck == s.baseSeq == irs
              && c.cumWriteUNA == s.cumReadNXT && s.cumWriteUNA == c.cumReadNXT
              && c.cumWriteUNA == Succ(c.baseSeq) && s.cumWriteUNA == Succ(s.baseSeq)
  {
    RunInv(states, events, iss, irs, i);
  }

  /** A transfer whose sender and receiver use the sockets' numbers and fresh rings. */
  ghost function FreshTransfer(from: Numbers, to: Numbers, wbuf: seq<Byte>, rbuf: seq<Byte>): (t: Transfer.State) {
    Transfer.State([], [], 0, [], [], false, None, wbuf, 0,
                   SlidingWindows.Tx(1, 1, from.cumWriteUNA, from.baseSeq, WINDOW_SIZE - 1, map[], false), Transfer.Idle,
                   [], [], [], false, ReadBuffers.Recv(rbuf, 0, 1, to.cumReadNXT, to.baseAck), multiset{})
  }

  /** An agreed handshake starts a transfer in either direction with both ring invariants in place. */
  lemma StartsTransfers(states: seq<State>, events: seq<Event>, iss: nat, irs: nat, i: nat, wbuf: seq<Byte>, rbuf: seq<Byte>)
    requires Run(states, events, iss, irs) && i < |states| && states[i].server.ServerUp?
    requires iss + 1 < UINT32 && irs + 1 < UINT32 && |wbuf| == |rbuf| == WINDOW_SIZE
    ensures states[i].client.ClientUp?
    ensures var t := FreshTransfer(states[i].client.nums, states[i].server.nums, wbuf, rbuf);
            Transfer.Init(t, iss) && TransferSafety.Inv(t, iss)
    ensures var t := FreshTransfer(states[i].server.nums, states[i].client.nums, wbuf, rbuf);
            Transfer.Init(t, irs) && TransferSafety.Inv(t, irs)
  {
    RunInv(states, events, iss, irs, i);
    TransferSafety.InitInv(FreshTransfer(states[i].client.nums, states[i].server.nums, wbuf, rbuf), iss);
    TransferSafety.InitInv(FreshTransfer(states[i].server.nums, states[i].client.nums, wbuf, rbuf), irs);
  }
}
