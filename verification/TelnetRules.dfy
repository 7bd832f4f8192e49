/** The telnet option functions against the rules of RFC 854 and the method of section 7 of RFC 1143. */
module TelnetRules {
  import opened Telnet

  // ----- RFC 854 -----

  // The state that a command is about: DO and DONT are about the receiver's own side, WILL and WONT about the
  // sender's.
  function StateFor(e: Endpoint, m: Message): OptState {
    match m.cmd
    case DO => e[m.option].localState
    case DONT => e[m.option].localState
    case WILL => e[m.option].peerState
    case WONT => e[m.option].peerState
  }

  function AllowedFor(e: Endpoint, m: Message): bool {
    match m.cmd
    case DO => e[m.option].localIsEnable
    case DONT => e[m.option].localIsEnable
    case WILL => e[m.option].peerIsEnable
    case WONT => e[m.option].peerIsEnable
  }

  predicate Affirms(m: Message) { m.cmd == WILL || m.cmd == DO }

  function Agreement(m: Message): Message {
    Message(if m.cmd == DO || m.cmd == DONT then WILL else DO, m.option)
  }

  function Refusal(m: Message): Message {
    Message(if m.cmd == DO || m.cmd == DONT then WONT else DONT, m.option)
  }

  // DONT or WONT for what is disabled already is neither answered nor does it change anything.
  lemma RefusalOfDisabledIgnored(e: Endpoint, m: Message)
    requires !Affirms(m) && StateFor(e, m) == Disable
    ensures Receive(e, m) == (e, [])
  {
    assert e[m.option := e[m.option]] == e;
  }

  // WILL or DO for what is enabled already neither.
  lemma OfferOfEnabledIgnored(e: Endpoint, m: Message)
    requires Affirms(m) && StateFor(e, m) == Enable
    ensures Receive(e, m) == (e, [])
  {
    assert e[m.option := e[m.option]] == e;
  }

  // A command that changes nothing is not answered, except that the offer of a disabled option that is not
  // allowed is refused, once.
  lemma NoNeedlessAnswer(e: Endpoint, m: Message)
    requires Receive(e, m).0 == e
    ensures Receive(e, m).1
            == if Affirms(m) && StateFor(e, m) == Disable && !AllowedFor(e, m) then [Refusal(m)] else []
  {
    StateAfter(e, m);
    AnswersAre(e, m);
  }

  lemma StateAfter(e: Endpoint, m: Message)
    ensures StateFor(Receive(e, m).0, m) == OnSignal(StateFor(e, m), AllowedFor(e, m), Affirms(m)).0
  {
  }

  lemma AnswersAre(e: Endpoint, m: Message)
    ensures var signals := OnSignal(StateFor(e, m), AllowedFor(e, m), Affirms(m)).1;
            && |Receive(e, m).1| == |signals|
            && forall i :: 0 <= i < |signals| ==> Receive(e, m).1[i] == if signals[i] then Agreement(m) else Refusal(m)
  {
  }

  // The offer of a disabled option is agreed to exactly when it is allowed, and answered once either way.
  lemma OfferAnswered(e: Endpoint, m: Message)
    requires Affirms(m) && StateFor(e, m) == Disable
    ensures Receive(e, m).1 == [if AllowedFor(e, m) then Agreement(m) else Refusal(m)]
    ensures StateFor(Receive(e, m).0, m) == if AllowedFor(e, m) then Enable else Disable
  {
    AnswersAre(e, m);
  }

  // An option that is enabled is given up at once, and that is confirmed.
  lemma RefusalAccepted(e: Endpoint, m: Message)
    requires !Affirms(m) && StateFor(e, m) == Enable
    ensures Receive(e, m).1 == [Refusal(m)] && StateFor(Receive(e, m).0, m) == Disable
  {
    AnswersAre(e, m);
  }

  // Nothing but the one state that the command is about ever changes.
  lemma OnlyItsState(e: Endpoint, m: Message)
    ensures var r := Receive(e, m).0;
            && (forall o: OptionCode :: o != m.option ==> r[o] == e[o])
            && r[m.option].localIsEnable == e[m.option].localIsEnable
            && r[m.option].peerIsEnable == e[m.option].peerIsEnable
            && (m.cmd == DO || m.cmd == DONT ==> r[m.option].peerState == e[m.option].peerState)
            && (m.cmd == WILL || m.cmd == WONT ==> r[m.option].localState == e[m.option].localState)
  {
  }

  // A request is an offer for one's own side or a wish about the other's, and only made for what is disabled.
  lemma RequestAsks(e: Endpoint, isLocal: bool, option: OptionCode)
    ensures var s := if isLocal then e[option].localState else e[option].peerState;
            && Request(e, isLocal, option).1
               == (if s == Disable then [Message(if isLocal then WILL else DO, option)] else [])
            && (s == Enable ==> Request(e, isLocal, option).0 == e)
  {
    assert e[option := e[option]] == e;
  }

  // ----- RFC 1143 -----

  // The state and the queue bit of the method.
  datatype Q = No | Yes | WantNo(opposite: bool) | WantYes(opposite: bool)

  function QOf(s: OptState): Q {
    match s
    case Disable => No
    case Enable => Yes
    case ExpectDisable => WantNo(false)
    case ExpectDisableRev => WantNo(true)
    case ExpectEnable => WantYes(false)
    case ExpectEnableRev => WantYes(true)
  }

  // What is to be done about one's own wish to enable an option; what the method calls an error changes nothing.
  function QRequest(q: Q): (Q, seq<bool>) {
    match q
    case No => (WantYes(false), [true])
    case Yes => (Yes, [])
    case WantNo(_) => (WantNo(true), [])
    case WantYes(_) => (WantYes(false), [])
  }

  // Upon receipt of WILL or DO.
  function QEnable(q: Q, agree: bool): (Q, seq<bool>) {
    match q
    case No => if agree then (Yes, [true]) else (No, [false])
    case Yes => (Yes, [])
    case WantNo(opposite) => if opposite then (Yes, []) else (No, [])
    case WantYes(opposite) => if opposite then (WantNo(false), [false]) else (Yes, [])
  }

  // Upon receipt of WONT or DONT.
  function QDisable(q: Q): (Q, seq<bool>) {
    match q
    case No => (No, [])
    case Yes => (No, [false])
    case WantNo(opposite) => if opposite then (WantYes(false), [true]) else (No, [])
    case WantYes(_) => (No, [])
  }

  function AsQ(r: (OptState, seq<bool>)): (Q, seq<bool>) { (QOf(r.0), r.1) }

  // Requests follow the method except when one has been made and not answered, or is queued: then the option
  // is taken as disabled.
  lemma RequestFollowsExactly(s: OptState)
    ensures AsQ(OnRequest(s)) == QRequest(QOf(s)) <==> s != ExpectEnable && s != ExpectDisableRev
    ensures s == ExpectEnable || s == ExpectDisableRev ==> OnRequest(s) == (Disable, [])
  {
  }

  // Receipts follow it, except that a queued request is forgotten when a refusal was to be answered and an
  // offer comes, and that the refusal of an offer that was to be withdrawn is confirmed.
  lemma ReceiptFollowsExactly(s: OptState, allowed: bool, affirm: bool)
    ensures AsQ(OnSignal(s, allowed, affirm)) == (if affirm then QEnable(QOf(s), allowed) else QDisable(QOf(s)))
            <==> !(affirm && s == ExpectDisableRev) && !(!affirm && s == ExpectEnableRev)
    ensures affirm && s == ExpectDisableRev ==> OnSignal(s, allowed, affirm) == (ExpectDisable, [])
    ensures !affirm && s == ExpectEnableRev ==> OnSignal(s, allowed, affirm) == (Disable, [false])
  {
  }

  // What a command does to the state it is about, and what is sent, in terms of the method.
  lemma ReceiveFollows(e: Endpoint, m: Message)
    requires !(Affirms(m) && StateFor(e, m) == ExpectDisableRev) && !(!Affirms(m) && StateFor(e, m) == ExpectEnableRev)
    ensures var (q, signals) := if Affirms(m) then QEnable(QOf(StateFor(e, m)), AllowedFor(e, m))
                                else QDisable(QOf(StateFor(e, m)));
            && QOf(StateFor(Receive(e, m).0, m)) == q
            && |Receive(e, m).1| == |signals|
            && forall i :: 0 <= i < |signals| ==> Receive(e, m).1[i] == if signals[i] then Agreement(m) else Refusal(m)
  {
    StateAfter(e, m);
    AnswersAre(e, m);
    ReceiptFollowsExactly(StateFor(e, m), AllowedFor(e, m), Affirms(m));
  }
}
