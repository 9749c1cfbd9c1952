/**
 * Stable message ids of minicc/session.py.  Every save matches the new message
 * list against the stored one by content, first come first served, so a message
 * that is still there keeps its id.
 */
module SessionIds {
  import opened Common

  type MessageId = string

  datatype Role = System | User | Assistant | Tool | OtherRole

  /** One tool call of a turn: its id, "" if it has no usable one, and all the rest of it. */
  datatype Call = Call(id: string, body: string)

  /**
   * A stored list may hold entries that are not objects.  `calls` lists a
   * turn's tool calls, `answers` the call a tool result belongs to, and `extra`
   * every field that the content fingerprint leaves out.
   */
  datatype Message =
    | NotAnObject(raw: string)
    | Turn(role: Role, text: string, calls: seq<Call>, answers: string, extra: string, id: Option<MessageId>)

  /** What a message is matched by; the digest of these fields is taken to be collision-free. */
  datatype Fingerprint = Fingerprint(role: Role, text: string, calls: seq<Call>, answers: string)

  function Key(m: Message): Fingerprint
    requires m.Turn?
  {
    Fingerprint(m.role, m.text, m.calls, m.answers)
  }

  predicate Carries(m: Message, key: Fingerprint) {
    m.Turn? && Key(m) == key
  }

  predicate HasId(m: Message) {
    m.Turn? && m.id.Some?
  }

  predicate SameId(a: Message, b: Message) {
    a.Turn? && b.Turn? && a.id == b.id
  }

  predicate AllTurns(messages: seq<Message>) {
    forall i :: 0 <= i < |messages| ==> messages[i].Turn?
  }

  /** The stored ids of one fingerprint, in stored order. */
  function IdsFor(stored: seq<Message>, key: Fingerprint): (r: seq<MessageId>)
    ensures |r| <= |stored|
  {
    if stored == [] then []
    else
      var last := stored[|stored| - 1];
      IdsFor(stored[..|stored| - 1], key) + if HasId(last) && Key(last) == key then [last.id.value] else []
  }

  /** How many of these messages carry the fingerprint. */
  function Count(messages: seq<Message>, key: Fingerprint): (n: nat)
    ensures n <= |messages|
  {
    if messages == [] then 0
    else Count(messages[..|messages| - 1], key) + if Carries(messages[|messages| - 1], key) then 1 else 0
  }

  /** The id of message `i`: the stored id of the same rank, else the token drawn for it. */
  function IdAt(stored: seq<Message>, messages: seq<Message>, tokens: seq<MessageId>, i: nat): MessageId
    requires i < |messages| == |tokens| && AllTurns(messages)
  {
    var key := Key(messages[i]);
    var rank := Count(messages[..i], key);
    if rank < |IdsFor(stored, key)| then IdsFor(stored, key)[rank] else tokens[i]
  }

  ghost predicate IsStamp(stored: seq<Message>, messages: seq<Message>, tokens: seq<MessageId>, i: nat, m: Message) {
    i < |messages| == |tokens| && AllTurns(messages)
    && m == messages[i].(id := Some(IdAt(stored, messages, tokens, i)))
  }

  ghost predicate Stamped(stored: seq<Message>, messages: seq<Message>, tokens: seq<MessageId>, stamped: seq<Message>) {
    |stamped| == |messages| == |tokens| && AllTurns(messages) && StampedSoFar(stored, messages, tokens, stamped)
  }

  // ---------- the save path ----------

  function QueueOf(queues: map<Fingerprint, seq<MessageId>>, key: Fingerprint): seq<MessageId> {
    if key in queues then queues[key] else []
  }

  method Index(stored: seq<Message>) returns (queues: map<Fingerprint, seq<MessageId>>)
    ensures forall key :: QueueOf(queues, key) == IdsFor(stored, key)
  {
    queues := map[];
    for i := 0 to |stored|
      invariant forall key :: QueueOf(queues, key) == IdsFor(stored[..i], key)
    {
      assert stored[..i + 1][..i] == stored[..i];
      if HasId(stored[i]) {
        var key := Key(stored[i]);
        queues := queues[key := QueueOf(queues, key) + [stored[i].id.value]];
      }
    }
    assert stored[..|stored|] == stored;
  }

  /** What is left of a queue after `used` pops. */
  function Left(ids: seq<MessageId>, used: nat): seq<MessageId> {
    if used < |ids| then ids[used..] else []
  }

  /** After `i` messages each queue has lost one id per message of its fingerprint. */
  ghost predicate Drained(queues: map<Fingerprint, seq<MessageId>>, stored: seq<Message>, messages: seq<Message>, i: nat)
    requires i <= |messages|
  {
    forall key :: QueueOf(queues, key) == Left(IdsFor(stored, key), Count(messages[..i], key))
  }

  lemma CountStep(messages: seq<Message>, i: nat, key: Fingerprint)
    requires i < |messages|
    ensures Count(messages[..i + 1], key) == Count(messages[..i], key) + if Carries(messages[i], key) then 1 else 0
  {
    assert messages[..i + 1][..i] == messages[..i];
  }

  lemma DrainedStep(queues: map<Fingerprint, seq<MessageId>>, queues': map<Fingerprint, seq<MessageId>>,
                    stored: seq<Message>, messages: seq<Message>, i: nat)
    requires i < |messages| && messages[i].Turn? && Drained(queues, stored, messages, i)
    requires var key := Key(messages[i]);
             var queue := QueueOf(queues, key);
             queues' == if queue == [] then queues else queues[key := queue[1..]]
    ensures Drained(queues', stored, messages, i + 1)
  {
    forall key ensures QueueOf(queues', key) == Left(IdsFor(stored, key), Count(messages[..i + 1], key)) {
      CountStep(messages, i, key);
      assert QueueOf(queues, key) == Left(IdsFor(stored, key), Count(messages[..i], key));
    }
  }

  lemma HeadIsIdAt(queues: map<Fingerprint, seq<MessageId>>, stored: seq<Message>, messages: seq<Message>,
                   tokens: seq<MessageId>, i: nat)
    requires i < |messages| == |tokens| && AllTurns(messages) && Drained(queues, stored, messages, i)
    ensures var queue := QueueOf(queues, Key(messages[i]));
            IdAt(stored, messages, tokens, i) == if queue == [] then tokens[i] else queue[0]
  {
    var key := Key(messages[i]);
    assert QueueOf(queues, key) == Left(IdsFor(stored, key), Count(messages[..i], key));
  }

  /** One message: the oldest id left for its content, else the token drawn for it. */
  method NextId(queues: map<Fingerprint, seq<MessageId>>, key: Fingerprint, token: MessageId)
    returns (id: MessageId, queues': map<Fingerprint, seq<MessageId>>)
    ensures var queue := QueueOf(queues, key);
            && id == (if queue == [] then token else queue[0])
            && queues' == (if queue == [] then queues else queues[key := queue[1..]])
  {
    var queue := QueueOf(queues, key);
    id, queues' := token, queues;
    if queue != [] {
      id := queue[0];
      queues' := queues[key := queue[1..]];
    }
  }

  /**
   * One save.  `tokens[i]` is the random id drawn for message `i` should it
   * need one; ids the caller's messages already carry are overwritten.
   */
  method WithMessageIds(messages: seq<Message>, stored: seq<Message>, tokens: seq<MessageId>)
    returns (stamped: seq<Message>)
    requires |tokens| == |messages| && AllTurns(messages)
    ensures Stamped(stored, messages, tokens, stamped)
  {
    var queues := Index(stored);
    stamped := [];
    StartDrained(queues, stored, messages);
    for i := 0 to |messages|
      invariant |stamped| == i && StampedSoFar(stored, messages, tokens, stamped)
      invariant Drained(queues, stored, messages, i)
    {
      var id, rest := NextId(queues, Key(messages[i]), tokens[i]);
      HeadIsIdAt(queues, stored, messages, tokens, i);
      DrainedStep(queues, rest, stored, messages, i);
      OneMoreStamp(stored, messages, tokens, stamped, id);
      queues, stamped := rest, stamped + [messages[i].(id := Some(id))];
    }
  }

  ghost predicate StampedSoFar(stored: seq<Message>, messages: seq<Message>, tokens: seq<MessageId>, stamped: seq<Message>) {
    forall i :: 0 <= i < |stamped| ==> IsStamp(stored, messages, tokens, i, stamped[i])
  }

  lemma OneMoreStamp(stored: seq<Message>, messages: seq<Message>, tokens: seq<MessageId>, stamped: seq<Message>, id: MessageId)
    requires |stamped| < |messages| == |tokens| && AllTurns(messages) && StampedSoFar(stored, messages, tokens, stamped)
    requires id == IdAt(stored, messages, tokens, |stamped|)
    ensures StampedSoFar(stored, messages, tokens, stamped + [messages[|stamped|].(id := Some(id))])
  {
    var stamp := messages[|stamped|].(id := Some(id));
    assert IsStamp(stored, messages, tokens, |stamped|, stamp);
  }

  lemma StartDrained(queues: map<Fingerprint, seq<MessageId>>, stored: seq<Message>, messages: seq<Message>)
    requires forall key :: QueueOf(queues, key) == IdsFor(stored, key)
    ensures Drained(queues, stored, messages, 0)
  {
  }

  // ---------- what the ids mean ----------

  ghost predicate DistinctIds(messages: seq<Message>) {
    forall i, j :: 0 <= i < j < |messages| && HasId(messages[i]) && HasId(messages[j]) ==>
                     messages[i].id != messages[j].id
  }

  /** Drawn tokens repeat neither each other nor a stored id. */
  ghost predicate FreshTokens(stored: seq<Message>, tokens: seq<MessageId>) {
    && Distinct(tokens)
    && forall i, p :: 0 <= i < |tokens| && 0 <= p < |stored| && HasId(stored[p]) ==> stored[p].id.value != tokens[i]
  }

  /** Where the `n`-th stored id of a fingerprint sits. */
  function Place(stored: seq<Message>, key: Fingerprint, n: nat): (p: nat)
    requires n < |IdsFor(stored, key)|
    ensures p < |stored| && HasId(stored[p]) && Key(stored[p]) == key
    ensures stored[p].id.value == IdsFor(stored, key)[n]
    ensures |IdsFor(stored[..p], key)| == n
  {
    var init := stored[..|stored| - 1];
    if n < |IdsFor(init, key)| then
      var p := Place(init, key, n);
      assert stored[..p] == init[..p];
      p
    else |stored| - 1
  }

  lemma {:induction false} PrefixIds(stored: seq<Message>, p: nat, key: Fingerprint)
    requires p <= |stored|
    ensures IdsFor(stored[..p], key) <= IdsFor(stored, key)
    decreases |stored|
  {
    if p == |stored| {
      assert stored[..p] == stored;
    } else {
      PrefixIds(stored[..|stored| - 1], p, key);
      assert stored[..|stored| - 1][..p] == stored[..p];
    }
  }

  lemma {:induction false} CountGrows(messages: seq<Message>, i: nat, j: nat, key: Fingerprint)
    requires i < j <= |messages|
    ensures Count(messages[..i], key) + (if Carries(messages[i], key) then 1 else 0) <= Count(messages[..j], key)
    decreases j
  {
    assert messages[..j][..j - 1] == messages[..j - 1];
    if i < j - 1 {
      CountGrows(messages, i, j - 1, key);
    }
  }

  /** A reused id comes from a stored message with exactly the new message's fingerprint. */
  lemma ReusedIdKeepsContent(stored: seq<Message>, messages: seq<Message>, tokens: seq<MessageId>,
                             stamped: seq<Message>, i: nat, p: nat)
    requires Stamped(stored, messages, tokens, stamped)
    requires DistinctIds(stored) && FreshTokens(stored, tokens)
    requires i < |stamped| && p < |stored| && HasId(stored[p]) && stamped[i].id == stored[p].id
    ensures Key(stamped[i]) == Key(stored[p]) == Key(messages[i])
    ensures Count(messages[..i], Key(stored[p])) == |IdsFor(stored[..p], Key(stored[p]))|
  {
    var key := Key(messages[i]);
    var rank := Count(messages[..i], key);
    assert rank < |IdsFor(stored, key)|;
    var q := Place(stored, key, rank);
    assert stored[q].id == stored[p].id;
    assert q == p;
  }

  /** That is, whatever extra fields it has, it keeps its role, text, calls and the call it answers. */
  lemma ReusedIdKeepsFields(stored: seq<Message>, messages: seq<Message>, tokens: seq<MessageId>,
                            stamped: seq<Message>, i: nat, p: nat)
    requires Stamped(stored, messages, tokens, stamped)
    requires DistinctIds(stored) && FreshTokens(stored, tokens)
    requires i < |stamped| && p < |stored| && HasId(stored[p]) && stamped[i].id == stored[p].id
    ensures stamped[i].role == stored[p].role && stamped[i].text == stored[p].text
    ensures stamped[i].calls == stored[p].calls && stamped[i].answers == stored[p].answers
    ensures stamped[i] == messages[i].(id := stored[p].id)
  {
    ReusedIdKeepsContent(stored, messages, tokens, stamped, i, p);
    assert IsStamp(stored, messages, tokens, i, stamped[i]);
  }

  /** Two messages are matched exactly when these four fields agree. */
  lemma MatchedExactly(a: Message, b: Message)
    requires a.Turn? && b.Turn?
    ensures Key(a) == Key(b) <==> a.role == b.role && a.text == b.text && a.calls == b.calls && a.answers == b.answers
  {
  }

  lemma SameIdSamePlace(stored: seq<Message>, messages: seq<Message>, tokens: seq<MessageId>, i: nat, j: nat)
    requires i < j < |messages| == |tokens| && AllTurns(messages)
    requires DistinctIds(stored) && FreshTokens(stored, tokens)
    ensures IdAt(stored, messages, tokens, i) != IdAt(stored, messages, tokens, j)
  {
    var ki, kj := Key(messages[i]), Key(messages[j]);
    var ri, rj := Count(messages[..i], ki), Count(messages[..j], kj);
    CountGrows(messages, i, j, ki);
    if ri < |IdsFor(stored, ki)| {
      var p := Place(stored, ki, ri);
      if rj < |IdsFor(stored, kj)| {
        var q := Place(stored, kj, rj);
        assert p == q ==> ki == kj && ri == rj;
        assert p != q;
      }
    } else if rj < |IdsFor(stored, kj)| {
      var q := Place(stored, kj, rj);
    }
  }

  /** Ids stay pairwise distinct over any save. */
  lemma IdsStayDistinct(stored: seq<Message>, messages: seq<Message>, tokens: seq<MessageId>, stamped: seq<Message>)
    requires Stamped(stored, messages, tokens, stamped)
    requires DistinctIds(stored) && FreshTokens(stored, tokens)
    ensures DistinctIds(stamped)
  {
    forall i, j | 0 <= i < j < |stamped| ensures stamped[i].id != stamped[j].id {
      SameIdSamePlace(stored, messages, tokens, i, j);
    }
  }

  lemma {:induction false} NthCarrier(messages: seq<Message>, key: Fingerprint, n: nat) returns (i: nat)
    requires n < Count(messages, key)
    ensures i < |messages| && Carries(messages[i], key) && Count(messages[..i], key) == n
  {
    var init := messages[..|messages| - 1];
    if n < Count(init, key) {
      i := NthCarrier(init, key, n);
      assert init[..i] == messages[..i];
    } else {
      i := |messages| - 1;
    }
  }

  /**
   * A stored id survives a save exactly when the new list still holds enough
   * copies of its content to reach it, counting copies from the front.
   */
  lemma IdSurvivesExactly(stored: seq<Message>, messages: seq<Message>, tokens: seq<MessageId>,
                          stamped: seq<Message>, p: nat)
    requires Stamped(stored, messages, tokens, stamped)
    requires DistinctIds(stored) && FreshTokens(stored, tokens)
    requires p < |stored| && HasId(stored[p])
    ensures (exists i :: 0 <= i < |stamped| && stamped[i].id == stored[p].id)
            <==> |IdsFor(stored[..p], Key(stored[p]))| < Count(messages, Key(stored[p]))
  {
    var key := Key(stored[p]);
    var rank := |IdsFor(stored[..p], key)|;
    if i :| 0 <= i < |stamped| && stamped[i].id == stored[p].id {
      ReusedIdKeepsContent(stored, messages, tokens, stamped, i, p);
      CountGrows(messages, i, |messages|, key);
      assert messages[..|messages|] == messages;
    }
    if rank < Count(messages, key) {
      var i := NthCarrier(messages, key, rank);
      IdIsReachedAtItsRank(stored, p);
      assert IsStamp(stored, messages, tokens, i, stamped[i]);
      assert stamped[i].id == stored[p].id;
    }
  }

  lemma IdIsReachedAtItsRank(stored: seq<Message>, p: nat)
    requires p < |stored| && HasId(stored[p])
    ensures var key := Key(stored[p]);
            var rank := |IdsFor(stored[..p], key)|;
            rank < |IdsFor(stored, key)| && IdsFor(stored, key)[rank] == stored[p].id.value
  {
    var key := Key(stored[p]);
    assert stored[..p + 1][..p] == stored[..p];
    PrefixIds(stored, p + 1, key);
  }

  /** Up to `n`, the same positions of both lists hold this content, and the stored ones carry ids. */
  ghost predicate AgreeOn(stored: seq<Message>, messages: seq<Message>, n: nat, key: Fingerprint) {
    n <= |stored| && n <= |messages|
    && forall i :: 0 <= i < n ==> ((HasId(stored[i]) && Key(stored[i]) == key) <==> Carries(messages[i], key))
  }

  lemma {:induction false} SameRanks(stored: seq<Message>, messages: seq<Message>, n: nat, key: Fingerprint)
    requires AgreeOn(stored, messages, n, key)
    ensures |IdsFor(stored[..n], key)| == Count(messages[..n], key)
    decreases n
  {
    if n > 0 {
      SameRanks(stored, messages, n - 1, key);
      assert stored[..n][..n - 1] == stored[..n - 1];
      assert messages[..n][..n - 1] == messages[..n - 1];
    }
  }

  /** Content that has not moved keeps its ids, whatever happened to the rest of the list. */
  lemma UnmovedContentKeepsItsIds(stored: seq<Message>, messages: seq<Message>, tokens: seq<MessageId>,
                                  stamped: seq<Message>, n: nat, key: Fingerprint)
    requires Stamped(stored, messages, tokens, stamped)
    requires AgreeOn(stored, messages, n, key)
    ensures forall i :: 0 <= i < n && Carries(messages[i], key) ==> SameId(stamped[i], stored[i])
  {
    forall i | 0 <= i < n && Carries(messages[i], key) ensures SameId(stamped[i], stored[i]) {
      SameRanks(stored, messages, i, key);
      IdIsReachedAtItsRank(stored, i);
      assert IsStamp(stored, messages, tokens, i, stamped[i]);
    }
  }

  /** Stored and new messages agree in content up to `n`, and every stored one has an id. */
  ghost predicate AgreeUpTo(stored: seq<Message>, messages: seq<Message>, n: nat) {
    n <= |stored| && n <= |messages|
    && forall i :: 0 <= i < n ==> HasId(stored[i]) && Carries(messages[i], Key(stored[i]))
  }

  /**
   * As long as the contents agree, ids stay where they are: an append-only
   * save keeps every old id at its position, and so does a save that rewrites
   * only a later part of the list.
   */
  lemma AgreeingPrefixKeepsItsIds(stored: seq<Message>, messages: seq<Message>, tokens: seq<MessageId>,
                                  stamped: seq<Message>, n: nat)
    requires Stamped(stored, messages, tokens, stamped)
    requires AgreeUpTo(stored, messages, n)
    ensures forall i :: 0 <= i < n ==> SameId(stamped[i], stored[i])
  {
    forall i | 0 <= i < n ensures SameId(stamped[i], stored[i]) {
      UnmovedContentKeepsItsIds(stored, messages, tokens, stamped, n, Key(stored[i]));
    }
  }

  /**
   * Loading replaces the leading system turn by the current prompt.  Saving
   * after that, with more turns appended, still keeps every later id in place.
   */
  lemma NewSystemPromptKeepsTheRest(stored: seq<Message>, messages: seq<Message>, tokens: seq<MessageId>,
                                    stamped: seq<Message>)
    requires Stamped(stored, messages, tokens, stamped)
    requires 1 <= |stored| <= |messages|
    requires forall i :: 0 <= i < |stored| ==> HasId(stored[i]) && (stored[i].role == System <==> i == 0)
    requires messages[0].role == System
    requires forall i :: 1 <= i < |stored| ==> HasId(stored[i]) && Carries(messages[i], Key(stored[i]))
    ensures forall i :: 1 <= i < |stored| ==> SameId(stamped[i], stored[i])
  {
    forall i | 1 <= i < |stored| ensures SameId(stamped[i], stored[i]) {
      UnmovedContentKeepsItsIds(stored, messages, tokens, stamped, |stored|, Key(stored[i]));
    }
  }

  /** Saving again what was just saved changes nothing, whatever tokens are drawn. */
  lemma SavingAgainIsStable(stored: seq<Message>, messages: seq<Message>, tokens: seq<MessageId>,
                            stamped: seq<Message>, tokens': seq<MessageId>, again: seq<Message>)
    requires Stamped(stored, messages, tokens, stamped)
    requires Stamped(stamped, stamped, tokens', again)
    ensures again == stamped
  {
    AgreeingPrefixKeepsItsIds(stamped, stamped, tokens', again, |stamped|);
  }
}
