/** Telnet option negotiation of the CLI telnet front end (cli_telnet.c).

    A session keeps, for each of the 256 options, a state for its own side of the option
    (`localState`, negotiated with WILL/WONT against the other end's DO/DONT) and one for the other
    end's side (`peerState`, the mirror image).  `Session` is the source's object, updated in place;
    `Request` and `Receive` say on values what its methods do; `Net` connects two sessions by two FIFO
    channels, and the theorems are about every run of `Net`. */
module Telnet {
  const MAX_OPTIONS := 256

  type OptionCode = x: int | 0 <= x < MAX_OPTIONS

  datatype OptState =
    | Disable | Enable | ExpectDisable | ExpectEnable | ExpectDisableRev | ExpectEnableRev

  datatype SessOption = SessOption(localIsEnable: bool, peerIsEnable: bool,
                                   localState: OptState, peerState: OptState)
  {
    function State(isLocal: bool): OptState {
      if isLocal then localState else peerState
    }

    function WithState(isLocal: bool, s: OptState): SessOption {
      if isLocal then this.(localState := s) else this.(peerState := s)
    }

    function Allowed(isLocal: bool): bool {
      if isLocal then localIsEnable else peerIsEnable
    }
  }

  datatype Command = WILL | WONT | DO | DONT

  datatype Message = Message(cmd: Command, option: OptionCode)

  // The affirmative or negative command for one's own side (WILL/WONT) or the other's (DO/DONT).
  function Signal(isLocal: bool, affirm: bool): Command {
    if isLocal then (if affirm then WILL else WONT) else (if affirm then DO else DONT)
  }

  type Endpoint = e: seq<SessOption> | |e| == MAX_OPTIONS
    witness seq(MAX_OPTIONS, _ => SessOption(false, false, Disable, Disable))

  function FreshEndpoint(): Endpoint {
    seq(MAX_OPTIONS, _ => SessOption(false, false, Disable, Disable))
  }

  // What one state cell does, and the answers it sends.

  function OnRequest(s: OptState): (OptState, seq<bool>) {
    match s
    case Enable => (Enable, [])
    case Disable => (ExpectEnable, [true])
    case ExpectEnable => (Disable, [])
    case ExpectDisable => (ExpectDisableRev, [])
    case ExpectEnableRev => (ExpectEnable, [])
    case ExpectDisableRev => (Disable, [])
  }

  function OnEnable(s: OptState, allowed: bool): (OptState, seq<bool>) {
    match s
    case Enable => (Enable, [])
    case Disable => if allowed then (Enable, [true]) else (Disable, [false])
    case ExpectEnable => (Enable, [])
    case ExpectDisable => (Disable, [])
    case ExpectEnableRev => (ExpectDisable, [false])
    case ExpectDisableRev => (ExpectDisable, [])
  }

  function OnDisable(s: OptState): (OptState, seq<bool>) {
    match s
    case Enable => (Disable, [false])
    case Disable => (Disable, [])
    case ExpectEnable => (Disable, [])
    case ExpectDisable => (Disable, [])
    case ExpectEnableRev => (Disable, [false])
    case ExpectDisableRev => (ExpectEnable, [true])
  }

  function OnSignal(s: OptState, allowed: bool, affirm: bool): (OptState, seq<bool>) {
    if affirm then OnEnable(s, allowed) else OnDisable(s)
  }

  function Answers(isLocal: bool, option: OptionCode, signals: seq<bool>): (r: seq<Message>)
    ensures |r| == |signals|
    ensures forall i :: 0 <= i < |r| ==> r[i] == Message(Signal(isLocal, signals[i]), option)
  {
    if signals == [] then []
    else [Message(Signal(isLocal, signals[0]), option)] + Answers(isLocal, option, signals[1..])
  }

  function Request(e: Endpoint, isLocal: bool, option: OptionCode): (Endpoint, seq<Message>) {
    var (s, out) := OnRequest(e[option].State(isLocal));
    (e[option := e[option].WithState(isLocal, s)], Answers(isLocal, option, out))
  }

  // DO and DONT speak about the receiver's own side, WILL and WONT about the sender's.
  function Receive(e: Endpoint, m: Message): (Endpoint, seq<Message>) {
    var isLocal := m.cmd == DO || m.cmd == DONT;
    var affirm := m.cmd == DO || m.cmd == WILL;
    var (s, out) := OnSignal(e[m.option].State(isLocal), e[m.option].Allowed(isLocal), affirm);
    (e[m.option := e[m.option].WithState(isLocal, s)], Answers(isLocal, m.option, out))
  }

  class Session {
    const telnetOption: array<SessOption>
    var sent: seq<Message>   // what telnet_sess_send2 was given, oldest first

    ghost predicate Valid() reads this {
      telnetOption.Length == MAX_OPTIONS
    }

    ghost function Options(): Endpoint
      requires Valid()
      reads this, telnetOption
    {
      telnetOption[..]
    }

    constructor ()
      ensures Valid() && fresh(telnetOption)
      ensures Options() == FreshEndpoint() && sent == []
    {
      telnetOption := new SessOption[MAX_OPTIONS](_ => SessOption(false, false, Disable, Disable));
      sent := [];
      new;
      assert telnetOption[..] == FreshEndpoint();
    }

    method SendTelnetCmd(cmd: Command, option: OptionCode)
      modifies `sent
      ensures sent == old(sent) + [Message(cmd, option)]
    {
      sent := sent + [Message(cmd, option)];
    }

    method SetState(isLocal: bool, option: OptionCode, s: OptState)
      requires Valid()
      modifies telnetOption
      ensures Options() == old(Options())[option := old(Options())[option].WithState(isLocal, s)]
    {
      telnetOption[option] := telnetOption[option].WithState(isLocal, s);
    }

    method SendEnableOption(isLocal: bool, option: OptionCode)
      requires Valid()
      modifies `sent, telnetOption
      ensures Options() == Request(old(Options()), isLocal, option).0
      ensures sent == old(sent) + Request(old(Options()), isLocal, option).1
    {
      match telnetOption[option].State(isLocal)
      case Enable =>
        assert old(Options())[option].WithState(isLocal, Enable) == old(Options())[option];
      case Disable =>
        SetState(isLocal, option, ExpectEnable);
        SendTelnetCmd(Signal(isLocal, true), option);
      case ExpectEnable =>
        SetState(isLocal, option, Disable);
      case ExpectDisable =>
        SetState(isLocal, option, ExpectDisableRev);
      case ExpectEnableRev =>
        SetState(isLocal, option, ExpectEnable);
      case ExpectDisableRev =>
        SetState(isLocal, option, Disable);
    }

    method ReceiveEnableOption(isLocal: bool, option: OptionCode)
      requires Valid()
      modifies `sent, telnetOption
      ensures Options() == Receive(old(Options()), Message(Signal(!isLocal, true), option)).0
      ensures sent == old(sent) + Receive(old(Options()), Message(Signal(!isLocal, true), option)).1
    {
      match telnetOption[option].State(isLocal)
      case Enable =>
        assert old(Options())[option].WithState(isLocal, Enable) == old(Options())[option];
      case Disable =>
        if telnetOption[option].Allowed(isLocal) {
          SetState(isLocal, option, Enable);
          SendTelnetCmd(Signal(isLocal, true), option);
        } else {
          assert old(Options())[option].WithState(isLocal, Disable) == old(Options())[option];
          SendTelnetCmd(Signal(isLocal, false), option);
        }
      case ExpectEnable =>
        SetState(isLocal, option, Enable);
      case ExpectDisable =>
        SetState(isLocal, option, Disable);
      case ExpectEnableRev =>
        SetState(isLocal, option, ExpectDisable);
        SendTelnetCmd(Signal(isLocal, false), option);
      case ExpectDisableRev =>
        SetState(isLocal, option, ExpectDisable);
    }

    method ReceiveDisableOption(isLocal: bool, option: OptionCode)
      requires Valid()
      modifies `sent, telnetOption
      ensures Options() == Receive(old(Options()), Message(Signal(!isLocal, false), option)).0
      ensures sent == old(sent) + Receive(old(Options()), Message(Signal(!isLocal, false), option)).1
    {
      match telnetOption[option].State(isLocal)
      case Enable =>
        SetState(isLocal, option, Disable);
        SendTelnetCmd(Signal(isLocal, false), option);
      case Disable =>
        assert old(Options())[option].WithState(isLocal, Disable) == old(Options())[option];
      case ExpectEnable =>
        SetState(isLocal, option, Disable);
      case ExpectDisable =>
        SetState(isLocal, option, Disable);
      case ExpectEnableRev =>
        SetState(isLocal, option, Disable);
        SendTelnetCmd(Signal(isLocal, false), option);
      case ExpectDisableRev =>
        SetState(isLocal, option, ExpectEnable);
        SendTelnetCmd(Signal(isLocal, true), option);
    }

    method SendCmdDo(option: OptionCode)
      requires Valid()
      modifies `sent, telnetOption
      ensures Options() == Request(old(Options()), false, option).0
      ensures sent == old(sent) + Request(old(Options()), false, option).1
    {
      SendEnableOption(false, option);
    }

    method SendCmdWill(option: OptionCode)
      requires Valid()
      modifies `sent, telnetOption
      ensures Options() == Request(old(Options()), true, option).0
      ensures sent == old(sent) + Request(old(Options()), true, option).1
    {
      SendEnableOption(true, option);
    }

    method ReceiveDo(option: OptionCode)
      requires Valid()
      modifies `sent, telnetOption
      ensures Options() == Receive(old(Options()), Message(DO, option)).0
      ensures sent == old(sent) + Receive(old(Options()), Message(DO, option)).1
    {
      ReceiveEnableOption(true, option);
    }

    method ReceiveDont(option: OptionCode)
      requires Valid()
      modifies `sent, telnetOption
      ensures Options() == Receive(old(Options()), Message(DONT, option)).0
      ensures sent == old(sent) + Receive(old(Options()), Message(DONT, option)).1
    {
      ReceiveDisableOption(true, option);
    }

    method ReceiveWill(option: OptionCode)
      requires Valid()
      modifies `sent, telnetOption
      ensures Options() == Receive(old(Options()), Message(WILL, option)).0
      ensures sent == old(sent) + Receive(old(Options()), Message(WILL, option)).1
    {
      ReceiveEnableOption(false, option);
    }

    method ReceiveWont(option: OptionCode)
      requires Valid()
      modifies `sent, telnetOption
      ensures Options() == Receive(old(Options()), Message(WONT, option)).0
      ensures sent == old(sent) + Receive(old(Options()), Message(WONT, option)).1
    {
      ReceiveDisableOption(false, option);
    }
  }

  // ----- two sessions and the channels between them -----

  datatype Net = Net(a: Endpoint, b: Endpoint, ab: seq<Message>, ba: seq<Message>,
                     requests: nat, messages: nat)

  // `Configure` is set_local_option / set_peer_option, at any time.
  datatype Event =
    | RequestBy(byA: bool, isLocal: bool, option: OptionCode)
    | DeliverTo(toA: bool)
    | Configure(atA: bool, isLocal: bool, option: OptionCode, allow: bool)

  function InitNet(): Net {
    Net(FreshEndpoint(), FreshEndpoint(), [], [], 0, 0)
  }

  // The network seen from the other end; the two ends follow the same rules.
  function Mirror(n: Net): Net {
    n.(a := n.b, b := n.a, ab := n.ba, ba := n.ab)
  }

  function RequestByA(n: Net, isLocal: bool, option: OptionCode): Net {
    var (e, out) := Request(n.a, isLocal, option);
    n.(a := e, ab := n.ab + out, requests := n.requests + 1, messages := n.messages + |out|)
  }

  function DeliverToA(n: Net): Net {
    if n.ba == [] then n
    else
      var (e, out) := Receive(n.a, n.ba[0]);
      n.(a := e, ba := n.ba[1..], ab := n.ab + out, messages := n.messages + |out|)
  }

  function ConfigureA(n: Net, isLocal: bool, option: OptionCode, allow: bool): Net {
    var o := n.a[option];
    n.(a := n.a[option := if isLocal then o.(localIsEnable := allow) else o.(peerIsEnable := allow)])
  }

  function StepA(n: Net, ev: Event): Net {
    match ev
    case RequestBy(_, isLocal, option) => RequestByA(n, isLocal, option)
    case DeliverTo(_) => DeliverToA(n)
    case Configure(_, isLocal, option, allow) => ConfigureA(n, isLocal, option, allow)
  }

  function AtA(ev: Event): bool {
    match ev
    case RequestBy(byA, _, _) => byA
    case DeliverTo(toA) => toA
    case Configure(atA, _, _, _) => atA
  }

  function Step(n: Net, ev: Event): Net {
    if AtA(ev) then StepA(n, ev) else Mirror(StepA(Mirror(n), ev))
  }

  function Run(n: Net, evs: seq<Event>): Net
    decreases |evs|
  {
    if evs == [] then n else Run(Step(n, evs[0]), evs[1..])
  }

  // ----- one negotiation: option `o`, the side of A (local to A) or of B -----

  // x is A's cell, y is B's; xy and yx are the signals about it on the wire, oldest first.
  datatype Negotiation = Negotiation(x: OptState, y: OptState, xy: seq<bool>, yx: seq<bool>)

  function Flip(v: Negotiation): Negotiation {
    Negotiation(v.y, v.x, v.yx, v.xy)
  }

  function SignalsOf(ch: seq<Message>, o: OptionCode, bySenderSide: bool): seq<bool> {
    if ch == [] then []
    else
      (if ch[0].option == o && ch[0].cmd == Signal(bySenderSide, true) then [true]
       else if ch[0].option == o && ch[0].cmd == Signal(bySenderSide, false) then [false]
       else [])
      + SignalsOf(ch[1..], o, bySenderSide)
  }

  function View(n: Net, o: OptionCode, localToA: bool): Negotiation {
    Negotiation(n.a[o].State(localToA), n.b[o].State(!localToA),
                SignalsOf(n.ab, o, localToA), SignalsOf(n.ba, o, !localToA))
  }

  lemma {:induction false} SignalsOfAppend(ch: seq<Message>, out: seq<Message>, o: OptionCode, side: bool)
    ensures SignalsOf(ch + out, o, side) == SignalsOf(ch, o, side) + SignalsOf(out, o, side)
  {
    if ch == [] {
      assert ch + out == out;
    } else {
      assert (ch + out)[1..] == ch[1..] + out;
      SignalsOfAppend(ch[1..], out, o, side);
    }
  }

  lemma {:induction false} SignalsOfAnswers(isLocal: bool, option: OptionCode, signals: seq<bool>, o: OptionCode, side: bool)
    ensures SignalsOf(Answers(isLocal, option, signals), o, side)
            == if o == option && side == isLocal then signals else []
  {
    if signals != [] {
      SignalsOfAnswers(isLocal, option, signals[1..], o, side);
      assert Answers(isLocal, option, signals)[1..] == Answers(isLocal, option, signals[1..]);
      assert signals == [signals[0]] + signals[1..];
    }
  }

  // How a step at A moves one negotiation.
  ghost predicate MovesByRequest(v: Negotiation, w: Negotiation) {
    var (s, out) := OnRequest(v.x);
    w == v.(x := s, xy := v.xy + out)
  }

  ghost predicate MovesByDelivery(v: Negotiation, allowed: bool, w: Negotiation) {
    && v.yx != []
    && var (s, out) := OnSignal(v.x, allowed, v.yx[0]);
       w == Negotiation(s, v.y, v.xy + out, v.yx[1..])
  }

  lemma RequestMoves(n: Net, isLocal: bool, option: OptionCode, o: OptionCode, side: bool)
    ensures var w := View(RequestByA(n, isLocal, option), o, side);
            if o == option && side == isLocal then MovesByRequest(View(n, o, side), w)
            else w == View(n, o, side)
  {
    var (_, signals) := OnRequest(n.a[option].State(isLocal));
    SignalsOfAppend(n.ab, Answers(isLocal, option, signals), o, side);
    SignalsOfAnswers(isLocal, option, signals, o, side);
  }

  // The signal a message carries about the negotiation of its own option, seen by its receiver.
  ghost predicate Concerns(m: Message, o: OptionCode, receiverSide: bool) {
    m.option == o && receiverSide == (m.cmd == DO || m.cmd == DONT)
  }

  lemma SignalsOfHead(ch: seq<Message>, o: OptionCode, receiverSide: bool)
    requires ch != []
    ensures SignalsOf(ch, o, !receiverSide)
            == (if Concerns(ch[0], o, receiverSide) then [ch[0].cmd == DO || ch[0].cmd == WILL] else [])
               + SignalsOf(ch[1..], o, !receiverSide)
  {
  }

  lemma ReceiveAnswers(e: Endpoint, m: Message, o: OptionCode, side: bool)
    ensures var (e', out) := Receive(e, m);
            var (s, signals) := OnSignal(e[o].State(side), e[o].Allowed(side), m.cmd == DO || m.cmd == WILL);
            if Concerns(m, o, side) then e'[o].State(side) == s && SignalsOf(out, o, side) == signals
            else e'[o].State(side) == e[o].State(side) && SignalsOf(out, o, side) == []
  {
    var isLocal := m.cmd == DO || m.cmd == DONT;
    var affirm := m.cmd == DO || m.cmd == WILL;
    var (_, signals) := OnSignal(e[m.option].State(isLocal), e[m.option].Allowed(isLocal), affirm);
    SignalsOfAnswers(isLocal, m.option, signals, o, side);
  }

  lemma DeliveryMoves(n: Net, o: OptionCode, side: bool)
    requires n.ba != []
    ensures var w := View(DeliverToA(n), o, side);
            if Concerns(n.ba[0], o, side) then MovesByDelivery(View(n, o, side), n.a[o].Allowed(side), w)
            else w == View(n, o, side)
  {
    SignalsOfHead(n.ba, o, side);
    ReceiveAnswers(n.a, n.ba[0], o, side);
    SignalsOfAppend(n.ab, Receive(n.a, n.ba[0]).1, o, side);
  }

  lemma ConfigureMoves(n: Net, isLocal: bool, option: OptionCode, allow: bool, o: OptionCode, side: bool)
    ensures View(ConfigureA(n, isLocal, option, allow), o, side) == View(n, o, side)
  {
  }

  lemma MirrorView(n: Net, o: OptionCode, side: bool)
    ensures View(Mirror(n), o, side) == Flip(View(n, o, !side))
  {
  }

  // ----- agreement, for every run -----

  // What x's state says about what is still under way; `out` is x's channel, `inn` the other.
  ghost predicate Supported(x: OptState, y: OptState, out: seq<bool>, inn: seq<bool>) {
    && (x == Disable || x == Enable || x == ExpectEnable)
    && (x == Enable && (out == [] || !out[|out| - 1]) ==> out == [] && (y == Enable || false in inn))
    && (x == ExpectEnable && (out == [] || !out[|out| - 1]) ==>
          out == [] && inn != [] && (y == Enable || false in inn))
  }

  ghost predicate Consistent(v: Negotiation) {
    Supported(v.x, v.y, v.xy, v.yx) && Supported(v.y, v.x, v.yx, v.xy)
  }

  ghost predicate AllConsistent(n: Net) {
    forall o: OptionCode, side: bool :: Consistent(View(n, o, side))
  }

  lemma RequestKeepsConsistent(v: Negotiation, w: Negotiation)
    requires Consistent(v) && MovesByRequest(v, w)
    ensures Consistent(w)
  {
  }

  lemma DeliveryKeepsConsistent(v: Negotiation, allowed: bool, w: Negotiation)
    requires Consistent(v) && MovesByDelivery(v, allowed, w)
    ensures Consistent(w)
  {
    assert v.yx == [v.yx[0]] + v.yx[1..];
    if v.yx[1..] != [] {
      assert v.yx[|v.yx| - 1] == v.yx[1..][|v.yx| - 2];
    }
  }

  lemma StepAKeepsConsistent(n: Net, ev: Event)
    requires AllConsistent(n)
    ensures AllConsistent(StepA(n, ev))
  {
    forall o: OptionCode, side: bool ensures Consistent(View(StepA(n, ev), o, side)) {
      var v, w := View(n, o, side), View(StepA(n, ev), o, side);
      assert Consistent(v);
      match ev
      case RequestBy(_, isLocal, option) =>
        RequestMoves(n, isLocal, option, o, side);
        if v != w { RequestKeepsConsistent(v, w); }
      case DeliverTo(_) =>
        if n.ba != [] {
          DeliveryMoves(n, o, side);
          if v != w { DeliveryKeepsConsistent(v, n.a[o].Allowed(side), w); }
        }
      case Configure(_, isLocal, option, allow) =>
        ConfigureMoves(n, isLocal, option, allow, o, side);
    }
  }

  lemma MirrorKeepsConsistent(n: Net)
    requires AllConsistent(n)
    ensures AllConsistent(Mirror(n))
  {
    forall o: OptionCode, side: bool ensures Consistent(View(Mirror(n), o, side)) {
      MirrorView(n, o, side);
      assert Consistent(View(n, o, !side));
    }
  }

  lemma {:induction false} RunKeepsConsistent(n: Net, evs: seq<Event>)
    requires AllConsistent(n)
    ensures AllConsistent(Run(n, evs))
    decreases |evs|
  {
    if evs != [] {
      if AtA(evs[0]) {
        StepAKeepsConsistent(n, evs[0]);
      } else {
        MirrorKeepsConsistent(n);
        StepAKeepsConsistent(Mirror(n), evs[0]);
        MirrorKeepsConsistent(StepA(Mirror(n), evs[0]));
      }
      RunKeepsConsistent(Step(n, evs[0]), evs[1..]);
    }
  }

  ghost predicate Settled(x: OptState, y: OptState) {
    (x == Disable || x == Enable) && y == x
  }

  // Agreement.  However the two ends ask for options (from any state, with the permitted options
  // changed at any time), once both channels are empty neither end is waiting for an answer, and each
  // end's own side of every option is enabled exactly when the other end believes it is.
  lemma QuietMeansAgreed(evs: seq<Event>)
    ensures var n := Run(InitNet(), evs);
            n.ab == [] && n.ba == [] ==>
              forall o: OptionCode :: Settled(n.a[o].localState, n.b[o].peerState)
                                      && Settled(n.b[o].localState, n.a[o].peerState)
  {
    assert AllConsistent(InitNet());
    RunKeepsConsistent(InitNet(), evs);
    var n := Run(InitNet(), evs);
    if n.ab == [] && n.ba == [] {
      forall o: OptionCode
        ensures Settled(n.a[o].localState, n.b[o].peerState) && Settled(n.b[o].localState, n.a[o].peerState)
      {
        assert Consistent(View(n, o, true)) && Consistent(View(n, o, false));
      }
    }
  }

  // ----- finitely many messages, when no request is repeated before it is answered -----

  ghost predicate Disciplined(n: Net, evs: seq<Event>)
    decreases |evs|
  {
    evs != [] ==>
      && (evs[0].RequestBy? ==>
            (if evs[0].byA then n.a else n.b)[evs[0].option].State(evs[0].isLocal) != ExpectEnable)
      && Disciplined(Step(n, evs[0]), evs[1..])
  }

  // The situations one negotiation can be in, up to exchanging the ends, with the number of
  // answers each can still cause beyond those already paid for.
  ghost predicate OneSided(v: Negotiation, debt: nat) {
    || (v == Negotiation(Disable, Disable, [], []) && debt == 0)
    || (v == Negotiation(Enable, Enable, [], []) && debt == 0)
    || (v == Negotiation(ExpectEnable, Disable, [true], []) && debt == 1)
    || (v == Negotiation(ExpectEnable, Disable, [], [false]) && debt == 0)
    || (v == Negotiation(ExpectEnable, Enable, [], [true]) && debt == 0)
    || (v == Negotiation(ExpectEnable, ExpectEnable, [true], [true]) && debt == 0)
    || (v == Negotiation(ExpectEnable, ExpectEnable, [], [false, true]) && debt == 1)
  }

  ghost predicate Owes(v: Negotiation, debt: nat) {
    OneSided(v, debt) || OneSided(Flip(v), debt)
  }

  ghost function Debt(v: Negotiation): nat {
    if Owes(v, 1) then 1 else 0
  }

  ghost predicate Tight(v: Negotiation) {
    Owes(v, Debt(v))
  }

  lemma RequestKeepsTight(v: Negotiation, w: Negotiation)
    requires Tight(v) && v.x != ExpectEnable && MovesByRequest(v, w)
    ensures Tight(w) && |w.xy| - |v.xy| + Debt(w) <= Debt(v) + 2
  {
  }

  lemma DeliveryKeepsTight(v: Negotiation, allowed: bool, w: Negotiation)
    requires Tight(v) && MovesByDelivery(v, allowed, w)
    ensures Tight(w) && |w.xy| - |v.xy| + Debt(w) <= Debt(v)
  {
  }

  ghost function DebtAt(n: Net, o: OptionCode): nat {
    Debt(View(n, o, true)) + Debt(View(n, o, false))
  }

  ghost function Debts(n: Net): seq<nat> {
    seq(MAX_OPTIONS, o requires 0 <= o < MAX_OPTIONS => DebtAt(n, o))
  }

  ghost function Sum(s: seq<nat>): nat {
    if s == [] then 0 else s[0] + Sum(s[1..])
  }

  lemma {:induction false} SumOfChanged(s: seq<nat>, i: nat, v: nat)
    requires i < |s|
    ensures Sum(s[i := v]) + s[i] == Sum(s) + v
  {
    if i == 0 {
      assert s[i := v][1..] == s[1..];
    } else {
      assert s[i := v][1..] == s[1..][i - 1 := v];
      SumOfChanged(s[1..], i - 1, v);
    }
  }

  ghost predicate Paid(n: Net) {
    && (forall o: OptionCode, side: bool :: Tight(View(n, o, side)))
    && n.messages + Sum(Debts(n)) <= 2 * n.requests
  }

  // One negotiation moves and the others stay: the total follows.
  lemma MovePays(n: Net, n': Net, option: OptionCode, side: bool, budget: nat)
    requires Paid(n)
    requires forall o: OptionCode, d: bool :: (o, d) != (option, side) ==> View(n', o, d) == View(n, o, d)
    requires Tight(View(n', option, side))
    requires n'.messages - n.messages + Debt(View(n', option, side)) <= Debt(View(n, option, side)) + budget
    requires 2 * n.requests + budget <= 2 * n'.requests
    ensures Paid(n')
  {
    forall o: OptionCode, d: bool ensures Tight(View(n', o, d)) {
      if (o, d) != (option, side) { assert Tight(View(n, o, d)); }
    }
    assert View(n', option, !side) == View(n, option, !side);
    forall o: OptionCode | o != option ensures DebtAt(n', o) == DebtAt(n, o) {
      assert View(n', o, true) == View(n, o, true) && View(n', o, false) == View(n, o, false);
    }
    assert Debts(n') == Debts(n)[option := DebtAt(n', option)];
    SumOfChanged(Debts(n), option, DebtAt(n', option));
  }

  lemma StepAKeepsPaid(n: Net, ev: Event)
    requires Paid(n)
    requires ev.RequestBy? ==> n.a[ev.option].State(ev.isLocal) != ExpectEnable
    ensures Paid(StepA(n, ev))
  {
    var n' := StepA(n, ev);
    match ev
    case RequestBy(_, isLocal, option) =>
      forall o: OptionCode, d: bool
        ensures if (o, d) == (option, isLocal) then MovesByRequest(View(n, o, d), View(n', o, d))
                else View(n', o, d) == View(n, o, d)
      {
        RequestMoves(n, isLocal, option, o, d);
      }
      RequestKeepsTight(View(n, option, isLocal), View(n', option, isLocal));
      MovePays(n, n', option, isLocal, 2);
    case DeliverTo(_) =>
      if n.ba != [] {
        var m := n.ba[0];
        var side := m.cmd == DO || m.cmd == DONT;
        forall o: OptionCode, d: bool
          ensures if Concerns(m, o, d) then MovesByDelivery(View(n, o, d), n.a[o].Allowed(d), View(n', o, d))
                  else View(n', o, d) == View(n, o, d)
        {
          DeliveryMoves(n, o, d);
        }
        DeliveryKeepsTight(View(n, m.option, side), n.a[m.option].Allowed(side), View(n', m.option, side));
        MovePays(n, n', m.option, side, 0);
      }
    case Configure(_, isLocal, option, allow) =>
      forall o: OptionCode, d: bool ensures View(n', o, d) == View(n, o, d) {
        ConfigureMoves(n, isLocal, option, allow, o, d);
      }
      MovePays(n, n', option, isLocal, 0);
  }

  lemma MirrorKeepsPaid(n: Net)
    requires Paid(n)
    ensures Paid(Mirror(n))
  {
    forall o: OptionCode ensures DebtAt(Mirror(n), o) == DebtAt(n, o) {
      MirrorView(n, o, true);
      MirrorView(n, o, false);
    }
    assert Debts(Mirror(n)) == Debts(n);
    forall o: OptionCode, side: bool ensures Tight(View(Mirror(n), o, side)) {
      MirrorView(n, o, side);
      assert Tight(View(n, o, !side));
    }
  }

  lemma {:induction false} RunKeepsPaid(n: Net, evs: seq<Event>)
    requires Paid(n) && Disciplined(n, evs)
    ensures Paid(Run(n, evs))
    decreases |evs|
  {
    if evs != [] {
      if AtA(evs[0]) {
        StepAKeepsPaid(n, evs[0]);
      } else {
        MirrorKeepsPaid(n);
        StepAKeepsPaid(Mirror(n), evs[0]);
        MirrorKeepsPaid(StepA(Mirror(n), evs[0]));
      }
      RunKeepsPaid(Step(n, evs[0]), evs[1..]);
    }
  }

  lemma {:induction false} SumOfZeros(s: seq<nat>)
    requires forall i :: 0 <= i < |s| ==> s[i] == 0
    ensures Sum(s) == 0
  {
    if s != [] { SumOfZeros(s[1..]); }
  }

  lemma IdleOwesNothing(v: Negotiation)
    requires v == Negotiation(Disable, Disable, [], [])
    ensures Tight(v) && Debt(v) == 0
  {
  }

  lemma IdleIsPaid(n: Net)
    requires forall o: OptionCode, side: bool :: View(n, o, side) == Negotiation(Disable, Disable, [], [])
    requires n.messages == 0
    ensures Paid(n)
  {
    IdleOwesNothing(Negotiation(Disable, Disable, [], []));
    forall o: OptionCode ensures DebtAt(n, o) == 0 {
      assert View(n, o, true) == View(n, o, false) == Negotiation(Disable, Disable, [], []);
    }
    SumOfZeros(Debts(n));
  }

  // Termination.  When no request is repeated while its answer is awaited, the two ends together never
  // send more than two messages per request.
  lemma AtMostTwoMessagesPerRequest(evs: seq<Event>)
    requires Disciplined(InitNet(), evs)
    ensures Run(InitNet(), evs).messages <= 2 * Run(InitNet(), evs).requests
  {
    IdleIsPaid(InitNet());
    RunKeepsPaid(InitNet(), evs);
  }

  // ----- the bound needs the discipline -----

  ghost function PingPong(messages: nat): Net {
    Net(FreshEndpoint()[0 := SessOption(true, false, Disable, Disable)],
        FreshEndpoint()[0 := SessOption(false, true, Disable, Disable)],
        [], [Message(DO, 0), Message(DONT, 0)], 4, messages)
  }

  const EXCHANGE := [DeliverTo(true), DeliverTo(false), DeliverTo(true), DeliverTo(false)]

  lemma {:induction false} RunAppend(n: Net, evs: seq<Event>, more: seq<Event>)
    ensures Run(n, evs + more) == Run(Run(n, evs), more)
    decreases |evs|
  {
    if evs == [] {
      assert evs + more == more;
    } else {
      assert (evs + more)[1..] == evs[1..] + more;
      RunAppend(Step(n, evs[0]), evs[1..], more);
    }
  }

  lemma RunOn(n: Net, evs: seq<Event>, more: seq<Event>, mid: Net, end: Net)
    requires Run(n, evs) == mid && Run(mid, more) == end
    ensures Run(n, evs + more) == end
  {
    RunAppend(n, evs, more);
  }

  lemma RunFour(n: Net, evs: seq<Event>)
    requires |evs| == 4
    ensures Run(n, evs) == Step(Step(Step(Step(n, evs[0]), evs[1]), evs[2]), evs[3])
  {
    var n2 := Step(Step(n, evs[0]), evs[1]);
    assert Run(n, evs) == Run(n2, evs[2..]) by {
      assert evs[1..][1..] == evs[2..];
    }
    assert Run(n2, evs[2..]) == Run(Step(Step(n2, evs[2]), evs[3]), []) by {
      assert evs[2..][1..][1..] == [];
    }
  }

  lemma ExchangeRepeats(m: nat)
    ensures Run(PingPong(m), EXCHANGE) == PingPong(m + 4)
  {
    var n0 := PingPong(m);
    var n1 := Step(n0, DeliverTo(true));
    var n2 := Step(n1, DeliverTo(false));
    var n3 := Step(n2, DeliverTo(true));
    var n4 := Step(n3, DeliverTo(false));
    assert n1 == n0.(a := n0.a[0 := SessOption(true, false, Enable, Disable)], ab := [Message(WILL, 0)],
                     ba := [Message(DONT, 0)], messages := m + 1);
    assert n2 == n1.(b := n0.b[0 := SessOption(false, true, Disable, Enable)], ab := [],
                     ba := [Message(DONT, 0), Message(DO, 0)], messages := m + 2);
    assert n3 == n2.(a := n0.a, ab := [Message(WONT, 0)], ba := [Message(DO, 0)], messages := m + 3);
    assert n4.b == n0.b;
    assert n4 == PingPong(m + 4);
    RunFour(n0, EXCHANGE);
  }

  const REQUESTS := [RequestBy(true, true, 0), RequestBy(true, true, 0), RequestBy(false, false, 0), RequestBy(false, false, 0)]

  const PERMIT := [DeliverTo(false), Configure(true, true, 0, true), Configure(false, false, 0, true)]

  ghost function Requested(): Net {
    Net(FreshEndpoint(), FreshEndpoint(), [Message(WILL, 0)], [Message(DO, 0)], 4, 2)
  }

  lemma RequestsReach()
    ensures Run(InitNet(), REQUESTS) == Requested()
  {
    var n1 := Step(InitNet(), REQUESTS[0]);
    var n2 := Step(n1, REQUESTS[1]);
    var n3 := Step(n2, REQUESTS[2]);
    var n4 := Step(n3, REQUESTS[3]);
    assert n2.a == FreshEndpoint() && n2.ab == [Message(WILL, 0)];
    assert n4.b == FreshEndpoint() && n4.ba == [Message(DO, 0)];
    assert n4 == Requested();
    assert REQUESTS[1..][1..][1..] == [REQUESTS[3]];
    assert REQUESTS[1..][1..] == [REQUESTS[2], REQUESTS[3]];
  }

  lemma PermitReaches()
    ensures Run(Requested(), PERMIT) == PingPong(3)
  {
    var n1 := Step(Requested(), PERMIT[0]);
    var n2 := Step(n1, PERMIT[1]);
    var n3 := Step(n2, PERMIT[2]);
    assert n1 == Net(FreshEndpoint(), FreshEndpoint(), [], [Message(DO, 0), Message(DONT, 0)], 4, 3);
    assert n3 == PingPong(3);
    assert PERMIT[1..][1..] == [PERMIT[2]];
  }

  lemma ExchangeOnce(evs: seq<Event>, m: nat)
    requires Run(InitNet(), evs) == PingPong(m)
    ensures Run(InitNet(), evs + EXCHANGE) == PingPong(m + 4)
  {
    ExchangeRepeats(m);
    RunOn(InitNet(), evs, EXCHANGE, PingPong(m), PingPong(m + 4));
  }

  lemma {:induction false} PingPongRun(k: nat) returns (evs: seq<Event>, m: nat)
    ensures Run(InitNet(), evs) == PingPong(m) && k <= m
  {
    if k == 0 {
      RequestsReach();
      PermitReaches();
      RunOn(InitNet(), REQUESTS, PERMIT, Requested(), PingPong(3));
      evs, m := REQUESTS + PERMIT, 3;
    } else {
      evs, m := PingPongRun(k - 1);
      ExchangeOnce(evs, m);
      evs, m := evs + EXCHANGE, m + 4;
    }
  }

  // Asking twice from `ExpectEnable` forgets an outstanding request.  Four such requests can keep the
  // two ends answering each other for as long as one likes, so the discipline above cannot be dropped.
  lemma RepeatedRequestsCanPingPong(k: nat)
    ensures exists evs :: Run(InitNet(), evs).requests == 4 && Run(InitNet(), evs).messages >= k
  {
    var evs, m := PingPongRun(k);
    assert Run(InitNet(), evs).messages >= k;
  }
}
