/**
 * Rewind and fork of minicc/session.py, cutting a conversation so that what is
 * kept is still one the tool protocol of minicc/agent/context.py accepts.
 */
module SessionCuts {
  import opened Common
  import opened SessionIds

  // ---------- the tool protocol ----------

  /** The calls the last round is still waiting for. */
  function Pending(messages: seq<Message>): set<string> {
    if messages == [] then {}
    else After(Pending(messages[..|messages| - 1]), messages[|messages| - 1])
  }

  /** One step of the walk: results settle, any other turn opens a new round. */
  function After(pending: set<string>, m: Message): set<string> {
    match m
    case NotAnObject(_) => pending
    case Turn(role, _, calls, answers, _, _) =>
      if role == Tool then pending - {answers} else set c | c in CallIds(calls) && c != ""
  }

  function CallIds(calls: seq<Call>): (ids: seq<string>)
    ensures |ids| == |calls|
  {
    seq(|calls|, i requires 0 <= i < |calls| => calls[i].id)
  }

  predicate CallsLegal(m: Message)
    requires m.Turn?
  {
    m.calls == [] || (m.role == Assistant && "" !in CallIds(m.calls) && Distinct(CallIds(m.calls)))
  }

  predicate StepLegal(pending: set<string>, m: Message) {
    m.Turn? && if m.role == Tool then m.answers in pending else pending == {} && CallsLegal(m)
  }

  ghost predicate Legal(messages: seq<Message>) {
    forall i :: 0 <= i < |messages| ==> StepLegal(Pending(messages[..i]), messages[i])
  }

  /** A history the model API takes: every round well formed and fully answered. */
  ghost predicate Accepted(messages: seq<Message>) {
    Legal(messages) && Pending(messages) == {}
  }

  lemma PendingStep(messages: seq<Message>, i: nat)
    requires i < |messages|
    ensures Pending(messages[..i + 1]) == After(Pending(messages[..i]), messages[i])
  {
    assert messages[..i + 1][..i] == messages[..i];
  }

  lemma LegalPrefix(messages: seq<Message>, i: nat, j: nat)
    requires i <= j <= |messages| && Legal(messages[..j])
    ensures Legal(messages[..i])
    ensures i < j ==> StepLegal(Pending(messages[..i]), messages[i])
  {
    forall k | 0 <= k < i ensures StepLegal(Pending(messages[..i][..k]), messages[..i][k]) {
      assert messages[..i][..k] == messages[..j][..k];
      assert messages[..i][k] == messages[..j][k];
    }
    if i < j {
      assert messages[..j][..i] == messages[..i] && messages[..j][i] == messages[i];
    }
  }

  lemma LegalStep(messages: seq<Message>, i: nat)
    requires i < |messages| && Legal(messages[..i]) && StepLegal(Pending(messages[..i]), messages[i])
    ensures Legal(messages[..i + 1])
  {
    var longer := messages[..i + 1];
    forall k | 0 <= k < |longer| ensures StepLegal(Pending(longer[..k]), longer[k]) {
      if k < i {
        assert longer[..k] == messages[..i][..k] && longer[k] == messages[..i][k];
      } else {
        assert longer[..k] == messages[..i];
      }
    }
  }

  /** The gate before every request: walks the rounds and refuses the first illegal step. */
  method ValidateToolProtocol(messages: seq<Message>) returns (ok: bool)
    ensures ok <==> Accepted(messages)
  {
    var pending := {};
    for i := 0 to |messages|
      invariant pending == Pending(messages[..i])
      invariant Legal(messages[..i])
    {
      var m := messages[i];
      if !StepLegal(pending, m) {
        return false;
      }
      LegalStep(messages, i);
      PendingStep(messages, i);
      pending := After(pending, m);
    }
    assert messages[..|messages|] == messages;
    ok := pending == {};
  }

  // ---------- the protocol by positions ----------

  /** Everything but a tool result starts a new round. */
  predicate StartsRound(m: Message) {
    m.Turn? && m.role != Tool
  }

  predicate Calls(m: Message, c: string) {
    m.Turn? && exists k :: 0 <= k < |m.calls| && m.calls[k].id == c
  }

  predicate Settles(m: Message, c: string) {
    m.Turn? && m.role == Tool && m.answers == c
  }

  /** The round at `o` is the last before `i`, it makes the call `c`, and no result up to `i` answers it. */
  ghost predicate Waits(messages: seq<Message>, o: nat, i: nat, c: string) {
    o < i <= |messages| && StartsRound(messages[o]) && c != "" && Calls(messages[o], c)
    && forall j :: o < j < i ==> !StartsRound(messages[j]) && !Settles(messages[j], c)
  }

  /** A call is pending exactly when the last round makes it and none of the results behind that round answers it. */
  lemma {:induction false} PendingExactly(messages: seq<Message>, i: nat, c: string)
    requires i <= |messages|
    ensures c in Pending(messages[..i]) <==> exists o: nat :: Waits(messages, o, i, c)
  {
    if i > 0 {
      PendingExactly(messages, i - 1, c);
      PendingStep(messages, i - 1);
      var m := messages[i - 1];
      if StartsRound(m) {
        assert c in CallIds(m.calls) <==> Calls(m, c) by {
          assert forall k :: 0 <= k < |m.calls| ==> CallIds(m.calls)[k] == m.calls[k].id;
        }
        assert c in Pending(messages[..i]) <==> Waits(messages, i - 1, i, c);
      } else {
        WaitsOneMore(messages, i - 1, c);
      }
    }
  }

  /** A result or a foreign entry opens no round. */
  lemma WaitsOneMore(messages: seq<Message>, h: nat, c: string)
    requires h < |messages| && !StartsRound(messages[h])
    ensures var i := h + 1;
      (exists o: nat :: Waits(messages, o, i, c)) <==> (exists o: nat :: Waits(messages, o, h, c)) && !Settles(messages[h], c)
  {
    var i := h + 1;
    if exists o: nat :: Waits(messages, o, h, c) {
      var o: nat :| Waits(messages, o, h, c);
      assert !Settles(messages[h], c) ==> Waits(messages, o, i, c);
    }
    if exists o: nat :: Waits(messages, o, i, c) {
      var o: nat :| Waits(messages, o, i, c);
      assert Waits(messages, o, h, c) && !Settles(messages[h], c);
    }
  }

  /** Only an assistant calls tools, each call under an id of its own. */
  predicate RoundLegal(m: Message) {
    m.Turn? && (m.role == Tool || m.calls == [] ||
      (m.role == Assistant && (forall k :: 0 <= k < |m.calls| ==> m.calls[k].id != "")
       && forall k, l :: 0 <= k < l < |m.calls| ==> m.calls[k].id != m.calls[l].id))
  }

  /** A result behind the round at `o` answers the call before the next round starts. */
  ghost predicate Answered(messages: seq<Message>, o: nat, c: string) {
    exists j :: o < j < |messages| && Settles(messages[j], c) && forall x :: o < x <= j ==> !StartsRound(messages[x])
  }

  /** Every turn is legal, every call of every round has its own result in that round, and every result answers a call that waits for it. */
  ghost predicate WellFormed(messages: seq<Message>) {
    && (forall i :: 0 <= i < |messages| ==> RoundLegal(messages[i]))
    && (forall o, c | 0 <= o < |messages| && StartsRound(messages[o]) && Calls(messages[o], c) :: Answered(messages, o, c))
    && (forall i | 0 <= i < |messages| && messages[i].Turn? && messages[i].role == Tool ::
         exists o: nat :: Waits(messages, o, i, messages[i].answers))
  }

  lemma {:induction false} NextRound(messages: seq<Message>, o: nat) returns (e: nat)
    requires o < |messages|
    ensures o < e <= |messages| && (forall x :: o < x < e ==> !StartsRound(messages[x])) && (e < |messages| ==> StartsRound(messages[e]))
    decreases |messages| - o
  {
    e := o + 1;
    if e < |messages| && !StartsRound(messages[e]) {
      e := NextRound(messages, e);
    }
  }

  lemma LegalCalls(m: Message)
    requires m.Turn? && m.role != Tool
    ensures CallsLegal(m) <==> RoundLegal(m)
  {
    var ids := CallIds(m.calls);
    assert forall k :: 0 <= k < |ids| ==> ids[k] == m.calls[k].id;
    if CallsLegal(m) && m.calls != [] {
      forall k | 0 <= k < |m.calls|
        ensures m.calls[k].id != ""
      {
        assert ids[k] != "";
      }
      forall k, l | 0 <= k < l < |m.calls|
        ensures m.calls[k].id != m.calls[l].id
      {
        assert ids[k] != ids[l];
      }
    }
  }

  lemma AcceptedAnswersEveryCall(messages: seq<Message>, o: nat, c: string)
    requires Accepted(messages) && o < |messages| && StartsRound(messages[o]) && Calls(messages[o], c)
    ensures Answered(messages, o, c)
  {
    assert StepLegal(Pending(messages[..o]), messages[o]);
    LegalCalls(messages[o]);
    var e := NextRound(messages, o);
    assert messages[..|messages|] == messages;
    assert e < |messages| ==> StepLegal(Pending(messages[..e]), messages[e]);
    PendingExactly(messages, e, c);
    assert !Waits(messages, o, e, c);
  }

  lemma NothingWaitsAtARound(messages: seq<Message>, i: nat)
    requires WellFormed(messages) && i <= |messages| && (i < |messages| ==> StartsRound(messages[i]))
    ensures Pending(messages[..i]) == {}
  {
    forall c
      ensures c !in Pending(messages[..i])
    {
      PendingExactly(messages, i, c);
      forall o: nat
        ensures !Waits(messages, o, i, c)
      {
        assert o < i && StartsRound(messages[o]) && Calls(messages[o], c) ==> Answered(messages, o, c);
      }
    }
  }

  /** The validator takes exactly the well-formed histories. */
  lemma AcceptedExactly(messages: seq<Message>)
    ensures Accepted(messages) <==> WellFormed(messages)
  {
    if Accepted(messages) {
      forall i | 0 <= i < |messages|
        ensures RoundLegal(messages[i])
        ensures messages[i].role == Tool ==> exists o: nat :: Waits(messages, o, i, messages[i].answers)
      {
        assert StepLegal(Pending(messages[..i]), messages[i]);
        if messages[i].role == Tool {
          PendingExactly(messages, i, messages[i].answers);
        } else {
          LegalCalls(messages[i]);
        }
      }
      forall o, c | 0 <= o < |messages| && StartsRound(messages[o]) && Calls(messages[o], c)
        ensures Answered(messages, o, c)
      {
        AcceptedAnswersEveryCall(messages, o, c);
      }
    }
    if WellFormed(messages) {
      forall i | 0 <= i < |messages|
        ensures StepLegal(Pending(messages[..i]), messages[i])
      {
        assert RoundLegal(messages[i]);
        if messages[i].role == Tool {
          PendingExactly(messages, i, messages[i].answers);
        } else {
          LegalCalls(messages[i]);
          NothingWaitsAtARound(messages, i);
        }
      }
      NothingWaitsAtARound(messages, |messages|);
      assert messages[..|messages|] == messages;
    }
  }

  // ---------- growing a cut ----------

  predicate Answers(pending: set<string>, m: Message) {
    m.Turn? && m.role == Tool && m.answers in pending
  }

  ghost predicate AnswersAt(messages: seq<Message>, j: nat)
    requires j < |messages|
  {
    Answers(Pending(messages[..j]), messages[j])
  }

  lemma AnAnswerNeedsAnOpenCall(messages: seq<Message>, j: nat)
    requires j < |messages|
    ensures AnswersAt(messages, j) ==> Pending(messages[..j]) != {}
  {
  }

  /** The first position from `keep` on whose message does not answer an open call. */
  ghost predicate IsCut(messages: seq<Message>, keep: nat, cut: nat) {
    keep <= cut <= |messages|
    && (forall j :: keep <= j < cut ==> AnswersAt(messages, j))
    && (cut < |messages| ==> !AnswersAt(messages, cut))
  }

  method PendingCalls(messages: seq<Message>) returns (pending: set<string>)
    ensures pending == Pending(messages)
  {
    pending := {};
    for i := 0 to |messages|
      invariant pending == Pending(messages[..i])
    {
      PendingStep(messages, i);
      pending := After(pending, messages[i]);
    }
    assert messages[..|messages|] == messages;
  }

  method KeepThroughToolResults(messages: seq<Message>, keep: nat) returns (cut: nat)
    requires keep <= |messages|
    ensures IsCut(messages, keep, cut)
  {
    cut := keep;
    while cut < |messages|
      invariant keep <= cut <= |messages|
      invariant forall j :: keep <= j < cut ==> AnswersAt(messages, j)
    {
      var pending := PendingCalls(messages[..cut]);
      if pending == {} {
        return;
      }
      var following := messages[cut];
      if !following.Turn? || following.role != Tool {
        return;
      }
      if following.answers !in pending {
        return;
      }
      cut := cut + 1;
    }
  }

  ghost predicate OnlyResults(messages: seq<Message>, keep: nat, j: nat) {
    keep <= j <= |messages|
    && forall i :: keep <= i < j ==> messages[i].Turn? && messages[i].role == Tool
  }

  lemma {:induction false} CutKeepsLegality(messages: seq<Message>, keep: nat, cut: nat, j: nat)
    requires IsCut(messages, keep, cut) && keep <= j <= cut && Legal(messages[..keep])
    ensures Legal(messages[..j])
    decreases j
  {
    if keep < j {
      var i: nat := j - 1;
      CutKeepsLegality(messages, keep, cut, i);
      AnswerIsLegal(messages, i);
      assert i + 1 == j;
    }
  }

  lemma AnswerIsLegal(messages: seq<Message>, i: nat)
    requires i < |messages| && Legal(messages[..i]) && AnswersAt(messages, i)
    ensures Legal(messages[..i + 1])
  {
    LegalStep(messages, i);
  }

  /**
   * The cut is the only way to repair a chosen point by carrying results
   * along: if any such extension is accepted, it is this one.
   */
  lemma CutIsTheOnlyRepair(messages: seq<Message>, keep: nat, cut: nat, j: nat)
    requires IsCut(messages, keep, cut)
    requires OnlyResults(messages, keep, j) && Accepted(messages[..j])
    ensures cut == j
  {
    if j < |messages| {
      AnAnswerNeedsAnOpenCall(messages, j);
    }
    if cut < j {
      LegalPrefix(messages, cut, j);
    }
  }

  /** So the kept part is accepted exactly when some such extension is. */
  lemma CutIsAcceptedExactly(messages: seq<Message>, keep: nat, cut: nat)
    requires IsCut(messages, keep, cut)
    ensures OnlyResults(messages, keep, cut)
    ensures Accepted(messages[..cut]) <==> exists j: nat :: OnlyResults(messages, keep, j) && Accepted(messages[..j])
  {
    if j: nat :| OnlyResults(messages, keep, j) && Accepted(messages[..j]) {
      CutIsTheOnlyRepair(messages, keep, cut, j);
    }
    forall i | keep <= i < cut ensures messages[i].Turn? && messages[i].role == Tool {
      assert AnswersAt(messages, i);
    }
    assert OnlyResults(messages, keep, cut);
  }

  /** With a legal choice, what decides is whether its calls are all answered. */
  lemma CutOfLegalChoice(messages: seq<Message>, keep: nat, cut: nat)
    requires IsCut(messages, keep, cut) && Legal(messages[..keep])
    ensures Accepted(messages[..cut]) <==> Pending(messages[..cut]) == {}
  {
    CutKeepsLegality(messages, keep, cut, cut);
  }

  /** Any cut of an accepted history is an accepted history. */
  lemma AcceptedHistoryStaysAccepted(messages: seq<Message>, keep: nat, cut: nat)
    requires IsCut(messages, keep, cut) && Accepted(messages)
    ensures Accepted(messages[..cut])
  {
    assert messages[..|messages|] == messages;
    LegalPrefix(messages, cut, |messages|);
    if cut < |messages| {
      assert StepLegal(Pending(messages[..cut]), messages[cut]);
      assert messages[cut].role != Tool;
    }
  }

  /** What a cut carries along, by positions: the results, from the chosen point on, of calls that still wait there. */
  lemma CarriedExactly(messages: seq<Message>, j: nat)
    requires j < |messages|
    ensures AnswersAt(messages, j) <==>
      messages[j].Turn? && messages[j].role == Tool && exists o: nat :: Waits(messages, o, j, messages[j].answers)
  {
    if messages[j].Turn? {
      PendingExactly(messages, j, messages[j].answers);
    }
  }

  /** No call of any kept round loses a result that the source has for it. */
  lemma RoundsStayWhole(messages: seq<Message>, keep: nat, cut: nat, o: nat, c: string)
    requires IsCut(messages, keep, cut) && WellFormed(messages)
    requires o < cut && StartsRound(messages[o]) && Calls(messages[o], c)
    ensures Answered(messages[..cut], o, c)
  {
    AcceptedExactly(messages);
    AcceptedHistoryStaysAccepted(messages, keep, cut);
    AcceptedAnswersEveryCall(messages[..cut], o, c);
  }

  /** How many user turns a history holds. */
  function UserTurns(messages: seq<Message>): (n: nat)
    ensures n <= |messages|
  {
    if messages == [] then 0
    else UserTurns(messages[..|messages| - 1]) + if IsUserTurn(messages[|messages| - 1]) then 1 else 0
  }

  ghost function UserPositions(messages: seq<Message>, n: nat): set<int>
    requires n <= |messages|
  {
    set i | 0 <= i < n && messages[i].Turn? && messages[i].role == User
  }

  lemma OneMoreUserPosition(messages: seq<Message>, n: nat)
    requires n < |messages|
    ensures UserPositions(messages, n + 1) ==
      if IsUserTurn(messages[n]) then UserPositions(messages, n) + {n} else UserPositions(messages, n)
  {
  }

  lemma {:induction false} UserTurnsAreCounted(messages: seq<Message>, n: nat)
    requires n <= |messages|
    ensures UserTurns(messages[..n]) == |UserPositions(messages, n)|
  {
    if n > 0 {
      UserTurnsAreCounted(messages, n - 1);
      UserTurnsStep(messages, n - 1);
      OneMoreUserPosition(messages, n - 1);
    }
  }

  predicate IsUserTurn(m: Message) {
    m.Turn? && m.role == User
  }

  lemma UserTurnsStep(messages: seq<Message>, i: nat)
    requires i < |messages|
    ensures UserTurns(messages[..i + 1]) == UserTurns(messages[..i]) + if IsUserTurn(messages[i]) then 1 else 0
  {
    assert messages[..i + 1][..i] == messages[..i];
  }

  lemma {:induction false} ResultsAddNoUserTurn(messages: seq<Message>, keep: nat, j: nat)
    requires OnlyResults(messages, keep, j)
    ensures UserTurns(messages[..j]) == UserTurns(messages[..keep])
    decreases j
  {
    if keep < j {
      ResultsAddNoUserTurn(messages, keep, j - 1);
      UserTurnsStep(messages, j - 1);
    }
  }

  lemma {:induction false} UserTurnsGrow(messages: seq<Message>, i: nat, j: nat)
    requires i <= j <= |messages|
    ensures UserTurns(messages[..i]) <= UserTurns(messages[..j])
    decreases j
  {
    if i < j {
      UserTurnsGrow(messages, i, j - 1);
      UserTurnsStep(messages, j - 1);
    }
  }

  // ---------- session files ----------

  type SessionId = string

  datatype Lineage = Lineage(session: SessionId, fromMessage: MessageId, keep: nat)

  datatype Payload = Payload(messages: seq<Message>, forkedFrom: Option<Lineage>, rewoundRemoved: Option<nat>)

  /** A session file that exists may still fail to parse into a payload. */
  datatype File = Damaged | Good(payload: Payload)

  datatype Refusal = NoSession | Unreadable | KeepTooSmall | NoSuchUserTurn | NoSuchMessage | PastTheEnd | TargetExists

  datatype Rewinding = Refused(why: Refusal) | Rewound(kept: nat, removed: nat, backedUp: bool)

  datatype Forking = ForkRefused(why: Refusal) | Forked(kept: nat)

  datatype Point = ById(id: MessageId) | ByCount(count: int)

  /** The messages of a payload that are objects. */
  function Objects(messages: seq<Message>): seq<Message> {
    if messages == [] then []
    else
      var rest := Objects(messages[..|messages| - 1]);
      if messages[|messages| - 1].Turn? then rest + [messages[|messages| - 1]] else rest
  }

  lemma {:induction false} ObjectsAreTurns(messages: seq<Message>)
    ensures AllTurns(Objects(messages)) && |Objects(messages)| <= |messages|
    ensures AllTurns(messages) ==> Objects(messages) == messages
  {
    if messages != [] {
      ObjectsAreTurns(messages[..|messages| - 1]);
    }
  }

  lemma ObjectsOneMore(messages: seq<Message>, i: nat)
    requires i < |messages|
    ensures Objects(messages[..i + 1]) == if messages[i].Turn? then Objects(messages[..i]) + [messages[i]] else Objects(messages[..i])
  {
    assert messages[..i + 1][..i] == messages[..i];
  }

  /** Exactly the objects of a history are kept, in order: each one behind those before it. */
  lemma {:induction false} ObjectAt(messages: seq<Message>, i: nat, n: nat)
    requires i < n <= |messages| && messages[i].Turn?
    ensures var at, kept := |Objects(messages[..i])|, Objects(messages[..n]); at < |kept| && kept[at] == messages[i]
    decreases n
  {
    ObjectsOneMore(messages, n - 1);
    if i < n - 1 {
      ObjectAt(messages, i, n - 1);
    }
  }

  ghost function ObjectPositions(messages: seq<Message>, n: nat): set<int>
    requires n <= |messages|
  {
    set i | 0 <= i < n && messages[i].Turn?
  }

  lemma OneMoreObjectPosition(messages: seq<Message>, n: nat)
    requires n < |messages|
    ensures ObjectPositions(messages, n + 1) ==
      if messages[n].Turn? then ObjectPositions(messages, n) + {n} else ObjectPositions(messages, n)
  {
  }

  lemma {:induction false} ObjectsAreCounted(messages: seq<Message>, n: nat)
    requires n <= |messages|
    ensures |Objects(messages[..n])| == |ObjectPositions(messages, n)|
  {
    if n > 0 {
      ObjectsAreCounted(messages, n - 1);
      ObjectsOneMore(messages, n - 1);
      OneMoreObjectPosition(messages, n - 1);
    }
  }

  function IdOf(m: Message): MessageId {
    if HasId(m) then m.id.value else ""
  }

  predicate At(m: Message, id: MessageId) {
    m.Turn? && m.id == Some(id)
  }

  ghost predicate LastWith(messages: seq<Message>, id: MessageId, p: nat) {
    p < |messages| && At(messages[p], id)
    && forall q :: p < q < |messages| ==> !At(messages[q], id)
  }

  method FindLast(messages: seq<Message>, id: MessageId) returns (found: Option<nat>)
    ensures found.Some? ==> LastWith(messages, id, found.value)
    ensures found.None? ==> forall q :: 0 <= q < |messages| ==> !At(messages[q], id)
  {
    found := None;
    for i := 0 to |messages|
      invariant found.Some? ==> LastWith(messages[..i], id, found.value)
      invariant found.None? ==> forall q :: 0 <= q < i ==> !At(messages[q], id)
    {
      if At(messages[i], id) {
        found := Some(i);
      }
    }
    assert messages[..|messages|] == messages;
  }

  /** The point after message `keep` was asked for. */
  ghost predicate Asks(messages: seq<Message>, point: Point, keep: int) {
    match point
    case ById(id) => keep >= 1 && LastWith(messages, id, keep - 1)
    case ByCount(count) => keep == Max(0, count)
  }

  /** The n-th user turn ends the first `keep` messages. */
  ghost predicate EndsWithUserTurn(messages: seq<Message>, n: nat, keep: nat) {
    0 < keep <= |messages| && IsUserTurn(messages[keep - 1]) && UserTurns(messages[..keep]) == n
  }

  class SessionFiles {
    var files: map<SessionId, File>
    var backups: map<SessionId, Payload>

    constructor ()
      ensures files == map[] && backups == map[]
    {
      files, backups := map[], map[];
    }

    method Read(session: SessionId) returns (r: Option<Payload>, why: Refusal)
      ensures r.Some? <==> session in files && files[session].Good?
      ensures r.Some? ==> files[session] == Good(r.value)
      ensures r.None? ==> why == if session in files then Unreadable else NoSession
    {
      why := NoSession;
      if session !in files {
        return None, NoSession;
      }
      match files[session]
      case Damaged => return None, Unreadable;
      case Good(payload) => return Some(payload), why;
    }

    /** A save stamps ids and keeps the lineage; a file that cannot be read counts as empty. */
    method Save(session: SessionId, messages: seq<Message>, tokens: seq<MessageId>)
      requires |tokens| == |messages| && AllTurns(messages)
      modifies this
      ensures backups == old(backups)
      ensures session in files && files[session].Good? && files == old(files)[session := files[session]]
      ensures var stored := if session in old(files) && old(files)[session].Good?
                            then old(files)[session].payload else Payload([], None, None);
              && files[session].payload.forkedFrom == stored.forkedFrom
              && files[session].payload.rewoundRemoved == None
              && Stamped(stored.messages, messages, tokens, files[session].payload.messages)
    {
      var read, _ := Read(session);
      var stored := match read case Some(payload) => payload case None => Payload([], None, None);
      var stamped := WithMessageIds(messages, stored.messages, tokens);
      files := files[session := Good(Payload(stamped, stored.forkedFrom, None))];
    }

    method Rewind(session: SessionId, keepMessages: int) returns (r: Rewinding)
      modifies this
      ensures RewindDone(old(files), old(backups), files, backups, session, Max(0, keepMessages), r)
    {
      var keep: nat := Max(0, keepMessages);
      var read, why := Read(session);
      if read.None? {
        return Refused(why);
      }
      var payload := read.value;
      var total := |payload.messages|;
      if total == 0 || keep < 1 {
        return Refused(KeepTooSmall);
      }
      if keep >= total {
        return Rewound(total, 0, false);
      }
      var cut := KeepThroughToolResults(payload.messages, keep);
      backups := backups[session := payload];
      files := files[session := Good(Payload(payload.messages[..cut], payload.forkedFrom, Some(total - cut)))];
      r := Rewound(cut, total - cut, true);
    }

    method RewindToUserIndex(session: SessionId, userIndex: int) returns (r: Rewinding)
      modifies this
      ensures RewoundToUser(old(files), old(backups), files, backups, session, Max(0, userIndex), r)
    {
      var n: nat := Max(0, userIndex);
      if n < 1 {
        return Refused(KeepTooSmall);
      }
      var read, why := Read(session);
      if read.None? {
        return Refused(why);
      }
      var messages := read.value.messages;
      var keep := FindUserTurn(messages, n);
      if keep.None? {
        return Refused(NoSuchUserTurn);
      }
      r := Rewind(session, keep.value);
    }

    method Fork(session: SessionId, point: Point, target: SessionId) returns (r: Forking)
      modifies this
      ensures ForkDone(old(files), files, session, point, target, r) && backups == old(backups)
    {
      var read, why := Read(session);
      if read.None? {
        return ForkRefused(why);
      }
      var messages := Objects(read.value.messages);
      var keep: nat;
      match point {
        case ById(id) =>
          var found := FindLast(messages, id);
          if found.None? {
            return ForkRefused(NoSuchMessage);
          }
          keep := found.value + 1;
        case ByCount(count) =>
          keep := Max(0, count);
      }
      assert Asks(messages, point, keep);
      if keep < 1 {
        return ForkRefused(KeepTooSmall);
      }
      if keep > |messages| {
        return ForkRefused(PastTheEnd);
      }
      var cut := KeepThroughToolResults(messages, keep);
      if target in files {
        return ForkRefused(TargetExists);
      }
      files := files[target := Good(Payload(messages[..cut], Some(Lineage(session, IdOf(messages[keep - 1]), cut)), None))];
      r := Forked(cut);
    }
  }

  method FindUserTurn(messages: seq<Message>, n: nat) returns (keep: Option<nat>)
    requires n >= 1
    ensures keep.Some? ==> EndsWithUserTurn(messages, n, keep.value) && UserTurns(messages) >= n
    ensures keep.None? ==> UserTurns(messages) < n
  {
    var seen := 0;
    for i := 0 to |messages|
      invariant seen == UserTurns(messages[..i]) < n
    {
      UserTurnsStep(messages, i);
      if IsUserTurn(messages[i]) {
        seen := seen + 1;
        if seen == n {
          UserTurnsGrow(messages, i + 1, |messages|);
          assert messages[..|messages|] == messages;
          return Some(i + 1);
        }
      }
    }
    assert messages[..|messages|] == messages;
    keep := None;
  }

  // ---------- what the operations promise ----------

  ghost predicate Readable(files: map<SessionId, File>, session: SessionId) {
    session in files && files[session].Good?
  }

  ghost predicate RewindDone(files: map<SessionId, File>, backups: map<SessionId, Payload>,
                             files': map<SessionId, File>, backups': map<SessionId, Payload>,
                             session: SessionId, keep: nat, r: Rewinding) {
    if !Readable(files, session) then
      files' == files && backups' == backups
      && r == Refused(if session in files then Unreadable else NoSession)
    else
      var payload := files[session].payload;
      var total := |payload.messages|;
      if total == 0 || keep < 1 then
        files' == files && backups' == backups && r == Refused(KeepTooSmall)
      else if keep >= total then
        files' == files && backups' == backups && r == Rewound(total, 0, false)
      else
        r.Rewound? && IsCut(payload.messages, keep, r.kept) && r == Rewound(r.kept, total - r.kept, true)
        && backups' == backups[session := payload]
        && files' == files[session := Good(Payload(payload.messages[..r.kept], payload.forkedFrom, Some(r.removed)))]
  }

  ghost predicate RewoundToUser(files: map<SessionId, File>, backups: map<SessionId, Payload>,
                                files': map<SessionId, File>, backups': map<SessionId, Payload>,
                                session: SessionId, n: nat, r: Rewinding) {
    if n < 1 then
      files' == files && backups' == backups && r == Refused(KeepTooSmall)
    else if !Readable(files, session) then
      files' == files && backups' == backups
      && r == Refused(if session in files then Unreadable else NoSession)
    else if UserTurns(files[session].payload.messages) < n then
      files' == files && backups' == backups && r == Refused(NoSuchUserTurn)
    else
      exists keep: nat :: EndsWithUserTurn(files[session].payload.messages, n, keep)
                  && RewindDone(files, backups, files', backups', session, keep, r)
  }

  ghost predicate ForkDone(files: map<SessionId, File>, files': map<SessionId, File>,
                           session: SessionId, point: Point, target: SessionId, r: Forking) {
    if !Readable(files, session) then
      files' == files && r == ForkRefused(if session in files then Unreadable else NoSession)
    else
      var messages := Objects(files[session].payload.messages);
      match r
      case ForkRefused(why) =>
        files' == files
        && (match why
           case NoSuchMessage => point.ById? && forall q :: 0 <= q < |messages| ==> !At(messages[q], point.id)
           case KeepTooSmall => point.ByCount? && point.count < 1
           case PastTheEnd => point.ByCount? && point.count > |messages|
           case TargetExists => target in files && exists keep :: Asks(messages, point, keep) && 1 <= keep <= |messages|
           case _ => false)
      case Forked(kept) =>
        && target !in files
        && exists keep ::
             && Asks(messages, point, keep) && 1 <= keep <= |messages| && IsCut(messages, keep, kept)
             && files' == files[target := Good(Payload(messages[..kept],
                                                       Some(Lineage(session, IdOf(messages[keep - 1]), kept)), None))]
  }

  /**
   * A rewind loses nothing: what it keeps and what it removes add up, the kept
   * part is a prefix of the backup, and copying the backup over the session
   * file undoes it exactly, for every session.
   */
  lemma RewindIsUndoneByItsBackup(files: map<SessionId, File>, backups: map<SessionId, Payload>,
                                  files': map<SessionId, File>, backups': map<SessionId, Payload>,
                                  session: SessionId, keep: nat, r: Rewinding)
    requires RewindDone(files, backups, files', backups', session, keep, r) && r.Rewound?
    ensures Readable(files, session) && Readable(files', session)
    ensures r.kept + r.removed == |files[session].payload.messages|
    ensures r.kept >= Min(keep, |files[session].payload.messages|)
    ensures files'[session].payload.messages == files[session].payload.messages[..r.kept]
    ensures !r.backedUp ==> files' == files && backups' == backups
    ensures r.backedUp ==> session in backups' && files'[session := Good(backups'[session])] == files
    ensures Accepted(files[session].payload.messages) ==> Accepted(files'[session].payload.messages)
  {
    var messages := files[session].payload.messages;
    if r.backedUp {
      if Accepted(messages) {
        AcceptedHistoryStaysAccepted(messages, keep, r.kept);
      }
    } else {
      assert messages[..|messages|] == messages;
    }
  }

  lemma CutIsUnique(messages: seq<Message>, keep: nat, a: nat, b: nat)
    requires IsCut(messages, keep, a) && IsCut(messages, keep, b)
    ensures a == b
  {
  }

  /** A backup is written with nothing removed exactly when the results carried along reach the end of the history. */
  lemma BackupWithoutRemovalExactly(files: map<SessionId, File>, backups: map<SessionId, Payload>,
                                    files': map<SessionId, File>, backups': map<SessionId, Payload>,
                                    session: SessionId, keep: nat, r: Rewinding)
    requires RewindDone(files, backups, files', backups', session, keep, r) && r.Rewound?
    ensures var messages := files[session].payload.messages;
            r.backedUp && r.removed == 0 <==> keep < |messages| && IsCut(messages, keep, |messages|)
  {
    var messages := files[session].payload.messages;
    if keep < |messages| && IsCut(messages, keep, |messages|) {
      CutIsUnique(messages, keep, r.kept, |messages|);
    }
  }

  /** One question, a tool call for it and its result: keeping through the call carries the result along. */
  lemma BackupOfTheWholeHistory(files: map<SessionId, File>, backups: map<SessionId, Payload>,
                                files': map<SessionId, File>, backups': map<SessionId, Payload>,
                                session: SessionId, r: Rewinding, question: string, call: Call, answer: string)
    requires call.id != ""
    requires var history := [Turn(System, "", [], "", "", None), Turn(User, question, [], "", "", None),
                             Turn(Assistant, "", [call], "", "", None), Turn(Tool, answer, [], call.id, "", None)];
             session in files && files[session] == Good(Payload(history, None, None))
    requires RewindDone(files, backups, files', backups', session, 3, r)
    ensures r == Rewound(4, 0, true) && files'[session].payload.messages == files[session].payload.messages
  {
    var history := files[session].payload.messages;
    CallIsOpen(history, call);
    assert AnswersAt(history, 3);
    assert IsCut(history, 3, 4);
    CutIsUnique(history, 3, r.kept, 4);
    assert history[..4] == history;
  }

  lemma CallIsOpen(history: seq<Message>, call: Call)
    requires |history| > 2 && history[2].Turn? && history[2].role == Assistant && history[2].calls == [call] && call.id != ""
    ensures call.id in Pending(history[..3])
  {
    PendingStep(history, 2);
    assert CallIds([call])[0] == call.id;
  }

  /** Rewinding to the n-th user turn leaves exactly n user turns. */
  lemma RewindToUserKeepsExactlyN(files: map<SessionId, File>, backups: map<SessionId, Payload>,
                                  files': map<SessionId, File>, backups': map<SessionId, Payload>,
                                  session: SessionId, n: nat, r: Rewinding)
    requires RewoundToUser(files, backups, files', backups', session, n, r)
    ensures r.Rewound? <==> n >= 1 && Readable(files, session) && UserTurns(files[session].payload.messages) >= n
    ensures r.Rewound? ==> Readable(files', session) && UserTurns(files'[session].payload.messages) == n
  {
    if n >= 1 && Readable(files, session) && UserTurns(files[session].payload.messages) >= n {
      var messages := files[session].payload.messages;
      var keep: nat :| EndsWithUserTurn(messages, n, keep) && RewindDone(files, backups, files', backups', session, keep, r);
      assert messages[..|messages|] == messages;
      if keep < |messages| {
        CutIsAcceptedExactly(messages, keep, r.kept);
        ResultsAddNoUserTurn(messages, keep, r.kept);
      }
    }
  }

  /** A fork is a valid conversation whenever its source is, and touches no other session. */
  lemma ForkOfAcceptedIsAccepted(files: map<SessionId, File>, files': map<SessionId, File>,
                                 session: SessionId, point: Point, target: SessionId, r: Forking)
    requires ForkDone(files, files', session, point, target, r) && r.Forked?
    requires Accepted(files[session].payload.messages)
    ensures Readable(files', target) && Accepted(files'[target].payload.messages)
    ensures files'[target].payload.messages <= files[session].payload.messages
    ensures forall s :: s in files ==> s in files' && files'[s] == files[s]
  {
    AcceptedAreTurns(files[session].payload.messages);
    ObjectsAreTurns(files[session].payload.messages);
    var keep, cut := ForkKeepsACut(files, files', session, point, target, r);
    AcceptedHistoryStaysAccepted(files[session].payload.messages, keep, r.kept);
  }

  /** What a successful fork writes: a cut of the source's objects, and nothing else. */
  lemma ForkKeepsACut(files: map<SessionId, File>, files': map<SessionId, File>,
                      session: SessionId, point: Point, target: SessionId, r: Forking) returns (keep: nat, cut: Payload)
    requires ForkDone(files, files', session, point, target, r) && r.Forked?
    ensures Readable(files, session) && IsCut(Objects(files[session].payload.messages), keep, r.kept)
    ensures cut.messages == Objects(files[session].payload.messages)[..r.kept]
    ensures target !in files && files' == files[target := Good(cut)]
  {
    var messages := Objects(files[session].payload.messages);
    var k: nat :|
      && Asks(messages, point, k) && 1 <= k <= |messages| && IsCut(messages, k, r.kept)
      && files' == files[target := Good(Payload(messages[..r.kept],
                                                Some(Lineage(session, IdOf(messages[k - 1]), r.kept)), None))];
    keep, cut := k, Payload(messages[..r.kept], Some(Lineage(session, IdOf(messages[k - 1]), r.kept)), None);
  }

  lemma AcceptedAreTurns(messages: seq<Message>)
    requires Accepted(messages)
    ensures AllTurns(messages)
  {
    forall i | 0 <= i < |messages| ensures messages[i].Turn? {
      assert StepLegal(Pending(messages[..i]), messages[i]);
    }
  }

  /**
   * Across the two halves of the event tree: ids handed out by a save name one
   * message each, so forking by id branches right behind that message.
   */
  lemma ForkByIdFindsTheMessage(stored: seq<Message>, messages: seq<Message>, tokens: seq<MessageId>,
                                saved: seq<Message>, p: nat, keep: int)
    requires Stamped(stored, messages, tokens, saved)
    requires DistinctIds(stored) && FreshTokens(stored, tokens)
    requires p < |saved| && saved[p].Turn? && saved[p].id.Some?
    requires Asks(Objects(saved), ById(saved[p].id.value), keep)
    ensures Objects(saved) == saved && keep == p + 1
    ensures IdOf(Objects(saved)[keep - 1]) == saved[p].id.value
  {
    IdsStayDistinct(stored, messages, tokens, saved);
    assert forall i :: 0 <= i < |saved| ==> IsStamp(stored, messages, tokens, i, saved[i]);
    assert AllTurns(saved);
    ObjectsAreTurns(saved);
  }
}
