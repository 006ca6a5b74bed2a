/**
 * The assistant chat: one streamed reply at a time, cancellation, and what survives a
 * restart (nftopia-mobile-app/stores/assistantStore.ts).
 */
module Chat {
  import opened Common
  import opened Strings

  datatype Role = User | Assistant | System

  datatype Message = Message(id: nat, role: Role, content: string, streaming: Option<bool>)

  /** A started stream. The store only ever asks whether it was aborted. */
  datatype Stream = Stream(aborted: bool, finished: bool)

  /** `controller` names the stream `abortController` belongs to; streams carry their reply's id. */
  datatype State = State(
    messages: seq<Message>,
    sessionId: Option<string>,
    isStreaming: bool,
    error: Option<string>,
    controller: Option<nat>,
    streams: map<nat, Stream>,
    nextId: nat)

  const EMPTY := State([], None, false, None, None, map[], 0)

  datatype Event =
    | Send(text: string)
    | Cancel
    | ClearConversation
    | OnToken(id: nat, token: string)
    | OnSessionId(id: nat, newSession: string)
    | OnDone(id: nat)
    | OnError(id: nat, message: string)

  /** Applies a change to the message with this id. */
  function Change(messages: seq<Message>, id: nat, f: Message -> Message): (r: seq<Message>)
    ensures |r| == |messages|
    ensures forall i :: 0 <= i < |r| ==> r[i] == (if messages[i].id == id then f(messages[i]) else messages[i])
  {
    seq(|messages|, i requires 0 <= i < |messages| => if messages[i].id == id then f(messages[i]) else messages[i])
  }

  function CancelStream(s: State): State {
    s.(controller := None, isStreaming := false,
       streams := if s.controller.Some? && s.controller.value in s.streams
                  then s.streams[s.controller.value := s.streams[s.controller.value].(aborted := true)] else s.streams)
  }

  const EXPIRED_TEXT := "This chat session has expired. Please send your message again to start a new session."

  /** What an error puts into a reply that is still empty. */
  function ErrorText(sessionLost: bool, message: string): string {
    if sessionLost then EXPIRED_TEXT else "Sorry, something went wrong: " + message
  }

  /** The server no longer knows the session; `lost` recognises such error messages. */
  predicate SessionLost(s: State, lost: string -> bool, message: string) {
    s.sessionId.Some? && s.sessionId.value != "" && lost(message)
  }

  function Append(token: string): Message -> Message {
    (m: Message) => m.(content := m.content + token)
  }

  function Finished(): Message -> Message {
    (m: Message) => m.(streaming := Some(false))
  }

  function Failed(text: string): Message -> Message {
    (m: Message) => m.(streaming := Some(false), content := if m.content != "" then m.content else text)
  }

  predicate Hears(s: State, id: nat) {
    id in s.streams && !s.streams[id].aborted
  }

  function Step(lost: string -> bool, s: State, e: Event): State {
    match e
    case Send(text) =>
      var trimmed := Trim(text);
      if trimmed == "" || s.isStreaming then s
      else
        var reply := s.nextId + 1;
        s.(messages := s.messages + [Message(s.nextId, User, trimmed, None), Message(reply, Assistant, "", Some(true))],
           isStreaming := true, error := None, controller := Some(reply),
           streams := s.streams[reply := Stream(false, false)], nextId := s.nextId + 2)
    case Cancel => CancelStream(s)
    case ClearConversation => CancelStream(s).(messages := [], sessionId := None, error := None)
    case OnToken(id, token) =>
      if !Hears(s, id) then s else s.(messages := Change(s.messages, id, Append(token)))
    case OnSessionId(id, session) =>
      if !Hears(s, id) then s else s.(sessionId := Some(session))
    case OnDone(id) =>
      if !Hears(s, id) then s
      else s.(isStreaming := false, controller := None, streams := s.streams[id := s.streams[id].(finished := true)],
              messages := Change(s.messages, id, Finished()))
    case OnError(id, message) =>
      if !Hears(s, id) then s
      else
        var sessionLost := SessionLost(s, lost, message);
        s.(isStreaming := false, controller := None, error := Some(message),
           sessionId := if sessionLost then None else s.sessionId,
           streams := s.streams[id := s.streams[id].(finished := true)],
           messages := Change(s.messages, id, Failed(ErrorText(sessionLost, message))))
  }

  function Run(lost: string -> bool, es: seq<Event>): State {
    if es == [] then EMPTY else Step(lost, Run(lost, es[..|es| - 1]), es[|es| - 1])
  }

  // ----- One live stream -----

  predicate IsLive(s: State, id: nat) {
    id in s.streams && !s.streams[id].aborted && !s.streams[id].finished
  }

  /** The streams that are live are the one `abortController` can stop, and there is one exactly while streaming. */
  ghost predicate OneLiveStream(s: State) {
    && (s.isStreaming <==> s.controller.Some?)
    && (forall id: nat :: IsLive(s, id) <==> s.controller == Some(id))
  }

  ghost predicate FreshIds(s: State) {
    && (forall id :: id in s.streams ==> id < s.nextId)
    && (forall i :: 0 <= i < |s.messages| ==> s.messages[i].id < s.nextId)
    && (forall i, j :: 0 <= i < j < |s.messages| ==> s.messages[i].id != s.messages[j].id)
  }

  predicate IsCallback(e: Event) {
    e.OnToken? || e.OnSessionId? || e.OnDone? || e.OnError?
  }

  /**
   * The chat service reports the end of a stream more than once (at the end marker and again
   * when the reader is done): a repeated report must find nothing streaming.
   */
  predicate Fits(s: State, e: Event) {
    (e.OnDone? || e.OnError?) && Hears(s, e.id) && s.streams[e.id].finished ==> !s.isStreaming
  }

  predicate AllFit(lost: string -> bool, es: seq<Event>) {
    es == [] || (AllFit(lost, es[..|es| - 1]) && Fits(Run(lost, es[..|es| - 1]), es[|es| - 1]))
  }

  /** One stream is live exactly while streaming, after every event of the run. */
  ghost predicate AlwaysOneLive(lost: string -> bool, es: seq<Event>) {
    OneLiveStream(Run(lost, es)) && (es == [] || AlwaysOneLive(lost, es[..|es| - 1]))
  }

  lemma StepFreshIds(lost: string -> bool, s: State, e: Event)
    requires FreshIds(s)
    ensures FreshIds(Step(lost, s, e))
  {
  }

  lemma {:induction false} RunFreshIds(lost: string -> bool, es: seq<Event>)
    ensures FreshIds(Run(lost, es))
    decreases |es|
  {
    if es != [] {
      RunFreshIds(lost, es[..|es| - 1]);
      StepFreshIds(lost, Run(lost, es[..|es| - 1]), es[|es| - 1]);
    }
  }

  lemma StepKeepsOneLive(lost: string -> bool, s: State, e: Event)
    requires FreshIds(s) && OneLiveStream(s) && Fits(s, e)
    ensures OneLiveStream(Step(lost, s, e))
  {
    var s' := Step(lost, s, e);
    assert forall id: nat :: IsLive(s, id) <==> s.controller == Some(id);
    if IsCallback(e) && Hears(s, e.id) {
      assert s.streams[e.id].finished || IsLive(s, e.id);
      assert forall id: nat :: id != e.id ==> (IsLive(s', id) <==> IsLive(s, id));
    }
  }

  lemma StepOrphans(lost: string -> bool, s: State, e: Event)
    requires OneLiveStream(s) && !Fits(s, e)
    ensures !OneLiveStream(Step(lost, s, e))
  {
    assert IsLive(s, s.controller.value);
    assert IsLive(Step(lost, s, e), s.controller.value);
  }

  /**
   * Exactly the runs in which no repeated end report arrives while a newer reply streams keep
   * one live stream while streaming and none otherwise; the first such report breaks it.
   */
  lemma {:induction false} OneLiveStreamIff(lost: string -> bool, es: seq<Event>)
    ensures AlwaysOneLive(lost, es) <==> AllFit(lost, es)
    decreases |es|
  {
    if es != [] {
      var before, e := es[..|es| - 1], es[|es| - 1];
      OneLiveStreamIff(lost, before);
      RunFreshIds(lost, before);
      if AlwaysOneLive(lost, before) {
        if Fits(Run(lost, before), e) {
          StepKeepsOneLive(lost, Run(lost, before), e);
        } else {
          StepOrphans(lost, Run(lost, before), e);
        }
      }
    }
  }

  lemma CancelledIsSilent(lost: string -> bool, s: State, e: Event)
    requires IsCallback(e) && e.id in s.streams && s.streams[e.id].aborted
    ensures Step(lost, s, e) == s
  {
  }

  /** Nothing of a cancelled reply is new; and unless the conversation is cleared, nothing of it is gone. */
  ghost predicate SameReply(before: seq<Message>, after: seq<Message>, id: nat, cleared: bool) {
    && (forall m :: m in after && m.id == id ==> m in before)
    && (!cleared ==> forall i :: 0 <= i < |before| && before[i].id == id ==> i < |after| && after[i] == before[i])
  }

  lemma StepLeavesCancelled(lost: string -> bool, s: State, e: Event, id: nat)
    requires FreshIds(s) && id in s.streams && s.streams[id].aborted
    ensures id in Step(lost, s, e).streams && Step(lost, s, e).streams[id].aborted
    ensures SameReply(s.messages, Step(lost, s, e).messages, id, e.ClearConversation?)
  {
    if IsCallback(e) && e.id == id {
      CancelledIsSilent(lost, s, e);
    }
  }

  lemma SameReplyOn(before: seq<Message>, between: seq<Message>, after: seq<Message>, id: nat, cleared: bool, clears: bool)
    requires SameReply(before, between, id, cleared) && SameReply(between, after, id, clears)
    ensures SameReply(before, after, id, cleared || clears)
  {
  }

  /**
   * Once cancelled, a reply is fixed: however the run goes on, its text and its place never
   * change until the conversation is cleared, and it never comes back after that.
   */
  lemma {:induction false} CancelledForGood(lost: string -> bool, es: seq<Event>, after: seq<Event>, id: nat)
    requires id in Run(lost, es).streams && Run(lost, es).streams[id].aborted
    ensures var s, s' := Run(lost, es), Run(lost, es + after);
            && id in s'.streams && s'.streams[id].aborted
            && SameReply(s.messages, s'.messages, id, ClearConversation in after)
    decreases |after|
  {
    if after == [] {
      assert es + after == es;
    } else {
      var shorter, e := after[..|after| - 1], after[|after| - 1];
      var before := es + shorter;
      assert (es + after)[..|es + after| - 1] == before && after == shorter + [e];
      CancelledForGood(lost, es, shorter, id);
      RunFreshIds(lost, before);
      StepLeavesCancelled(lost, Run(lost, before), e, id);
      SameReplyOn(Run(lost, es).messages, Run(lost, before).messages, Run(lost, es + after).messages, id, ClearConversation in shorter, e.ClearConversation?);
    }
  }

  /** A first message has been answered and a second one is being answered. */
  const SECOND_ANSWER := State([Message(0, User, "a", None), Message(1, Assistant, "", Some(false)),
                                Message(2, User, "b", None), Message(3, Assistant, "", Some(true))],
                               None, true, None, Some(3), map[1 := Stream(false, true), 3 := Stream(false, false)], 4)

  lemma SecondAnswerReached(lost: string -> bool)
    ensures Run(lost, [Send("a"), OnDone(1), Send("b")]) == SECOND_ANSWER
  {
    assert [Send("a"), OnDone(1), Send("b")][..2] == [Send("a"), OnDone(1)];
    assert [Send("a"), OnDone(1)][..1] == [Send("a")];
    assert [Send("a")][..0] == [];
    assert Run(lost, [Send("a")]).streams == map[1 := Stream(false, false)];
  }

  /** A run in which it is not: the second reply streams on, but nothing can cancel it. */
  lemma SecondEndOrphansAStream(lost: string -> bool)
    ensures var s := Run(lost, [Send("a"), OnDone(1), Send("b"), OnDone(1)]);
            !s.isStreaming && s.controller.None? && IsLive(s, 3) && IsLive(Step(lost, s, Cancel), 3)
  {
    assert [Send("a"), OnDone(1), Send("b"), OnDone(1)][..3] == [Send("a"), OnDone(1), Send("b")];
    SecondAnswerReached(lost);
  }

  lemma CancelStopsTheLiveOne(s: State, id: nat)
    requires OneLiveStream(s)
    ensures !IsLive(CancelStream(s), id)
  {
    assert IsLive(s, id) <==> s.controller == Some(id);
  }

  /** Cancelling stops whatever streams and changes nothing else: no stream is live then if there was one at most. */
  lemma CancelStops(lost: string -> bool, s: State)
    ensures var s' := Step(lost, s, Cancel);
            && !s'.isStreaming && s'.controller.None? && s' == s.(isStreaming := false, controller := None, streams := s'.streams)
            && (OneLiveStream(s) ==> forall id: nat :: !IsLive(s', id))
  {
    if OneLiveStream(s) {
      forall id: nat ensures !IsLive(Step(lost, s, Cancel), id) {
        CancelStopsTheLiveOne(s, id);
      }
    }
  }

  /** Clearing leaves the store as it was at the start, but for streams it no longer hears and ids it has given out. */
  lemma ClearStartsOver(lost: string -> bool, s: State)
    ensures var s' := Step(lost, s, ClearConversation); s' == EMPTY.(streams := s'.streams, nextId := s.nextId)
    ensures OneLiveStream(s) ==> forall id: nat :: !IsLive(Step(lost, s, ClearConversation), id)
  {
    if OneLiveStream(s) {
      forall id: nat ensures !IsLive(Step(lost, s, ClearConversation), id) {
        CancelStopsTheLiveOne(s, id);
      }
    }
  }

  // ----- What a reply says -----

  /** What one event adds to a reply. */
  function NewToken(s: State, e: Event, id: nat): string {
    if e.OnToken? && e.id == id && Hears(s, id) then e.token else ""
  }

  /** The tokens delivered to a reply before its stream was cancelled, in order. */
  function Heard(lost: string -> bool, es: seq<Event>, id: nat): string {
    if es == [] then ""
    else Heard(lost, es[..|es| - 1], id) + NewToken(Run(lost, es[..|es| - 1]), es[|es| - 1], id)
  }

  /** The text an error puts into a reply that has heard nothing and holds no error text. */
  function NewFilling(lost: string -> bool, s: State, e: Event, id: nat, text: string): string {
    if e.OnError? && e.id == id && Hears(s, id) && text == "" then ErrorText(SessionLost(s, lost, e.message), e.message) else ""
  }

  /** The text of the first error that found the reply empty. */
  function Filling(lost: string -> bool, es: seq<Event>, id: nat): string {
    if es == [] then ""
    else
      var before := es[..|es| - 1];
      var filling := Filling(lost, before, id);
      filling + NewFilling(lost, Run(lost, before), es[|es| - 1], id, filling + Heard(lost, before, id))
  }

  ghost predicate Says(s: State, m: Message, filling: string, heard: string) {
    m.role.Assistant? ==> m.id in s.streams && m.content == filling + heard
  }

  ghost predicate ReplyText(lost: string -> bool, es: seq<Event>, m: Message) {
    Says(Run(lost, es), m, Filling(lost, es, m.id), Heard(lost, es, m.id))
  }

  lemma SaysMore(lost: string -> bool, s: State, e: Event, i: nat, filling: string, heard: string)
    requires FreshIds(s) && i < |s.messages| && i < |Step(lost, s, e).messages|
    requires Says(s, s.messages[i], filling, heard)
    ensures var m, m' := s.messages[i], Step(lost, s, e).messages[i];
            m'.id == m.id && Says(Step(lost, s, e), m', filling + NewFilling(lost, s, e, m.id, filling + heard), heard + NewToken(s, e, m.id))
  {
    assert e.OnToken? ==> filling + (heard + e.token) == filling + heard + e.token;
    assert filling + "" == filling && heard + "" == heard;
    assert filling + heard == "" ==> filling == "" && heard == "";
  }

  lemma {:induction false} UnstartedHearsNothing(lost: string -> bool, es: seq<Event>, id: nat)
    requires id !in Run(lost, es).streams
    ensures Heard(lost, es, id) == "" && Filling(lost, es, id) == ""
    decreases |es|
  {
    if es != [] {
      UnstartedHearsNothing(lost, es[..|es| - 1], id);
    }
  }

  /**
   * In every run, with ends and errors reported any number of times, a reply is the tokens
   * delivered to it, in order, after the text of an error if one found it empty.
   */
  lemma {:induction false} RepliesAreTheirTokens(lost: string -> bool, es: seq<Event>)
    ensures forall i :: 0 <= i < |Run(lost, es).messages| ==> ReplyText(lost, es, Run(lost, es).messages[i])
    decreases |es|
  {
    if es != [] {
      var before := es[..|es| - 1];
      var s, s' := Run(lost, before), Run(lost, es);
      RepliesAreTheirTokens(lost, before);
      RunFreshIds(lost, before);
      forall i | 0 <= i < |s'.messages|
        ensures ReplyText(lost, es, s'.messages[i])
      {
        if i < |s.messages| {
          assert ReplyText(lost, before, s.messages[i]);
          var m := s.messages[i];
          SaysMore(lost, s, es[|es| - 1], i, Filling(lost, before, m.id), Heard(lost, before, m.id));
        } else if s'.messages[i].role.Assistant? {
          NewReplyIsEmpty(lost, es, i);
        }
      }
    }
  }

  lemma OnlySendAdds(lost: string -> bool, s: State, e: Event, i: nat)
    requires |s.messages| <= i < |Step(lost, s, e).messages|
    ensures var m := Step(lost, s, e).messages[i];
            && e.Send? && m.id >= s.nextId
            && (m.role.Assistant? ==> m.content == "" && m.id in Step(lost, s, e).streams)
  {
  }

  lemma NewReplyIsEmpty(lost: string -> bool, es: seq<Event>, i: nat)
    requires es != [] && FreshIds(Run(lost, es[..|es| - 1]))
    requires |Run(lost, es[..|es| - 1]).messages| <= i < |Run(lost, es).messages|
    ensures ReplyText(lost, es, Run(lost, es).messages[i])
  {
    var before, e := es[..|es| - 1], es[|es| - 1];
    var s, m := Run(lost, before), Run(lost, es).messages[i];
    OnlySendAdds(lost, s, e, i);
    UnstartedHearsNothing(lost, before, m.id);
    assert Heard(lost, es, m.id) == "" && Filling(lost, es, m.id) == "";
  }

  // ----- Which server session is known -----

  /** A stream that was not cancelled names a server session. */
  predicate Names(s: State, e: Event) {
    e.OnSessionId? && Hears(s, e.id)
  }

  /**
   * The event leaves the session with this name known: it names none, does not clear the
   * conversation, and is no error that says the server has lost it; an empty name is never lost.
   */
  predicate LeavesKnown(lost: string -> bool, s: State, e: Event, session: string) {
    !Names(s, e) && !e.ClearConversation? && !(e.OnError? && Hears(s, e.id) && session != "" && lost(e.message))
  }

  /** The event at this place names the session, and all since leave it known. */
  ghost predicate KnownSince(lost: string -> bool, es: seq<Event>, i: nat, session: string) {
    && i < |es| && Names(Run(lost, es[..i]), es[i]) && es[i].newSession == session
    && forall j :: i < j < |es| ==> LeavesKnown(lost, Run(lost, es[..j]), es[j], session)
  }

  lemma StepSession(lost: string -> bool, s: State, e: Event, session: string)
    ensures Step(lost, s, e).sessionId == Some(session)
       <==> if Names(s, e) then e.newSession == session else s.sessionId == Some(session) && LeavesKnown(lost, s, e, session)
  {
  }

  lemma KnownLonger(lost: string -> bool, before: seq<Event>, e: Event, i: nat, session: string)
    requires i < |before|
    ensures KnownSince(lost, before + [e], i, session)
       <==> KnownSince(lost, before, i, session) && LeavesKnown(lost, Run(lost, before), e, session)
  {
    var es := before + [e];
    assert es[..|before|] == before;
    assert forall j :: 0 <= j < |before| ==> before[..j] == es[..j] && before[j] == es[j];
    if KnownSince(lost, es, i, session) {
      assert LeavesKnown(lost, Run(lost, es[..|before|]), es[|before|], session);
      forall j | i < j < |before| ensures LeavesKnown(lost, Run(lost, before[..j]), before[j], session) {
        assert LeavesKnown(lost, Run(lost, es[..j]), es[j], session);
      }
    }
  }

  lemma KnownGrows(lost: string -> bool, before: seq<Event>, e: Event, session: string)
    ensures var s := Run(lost, before);
            (exists i :: KnownSince(lost, before + [e], i, session))
            <==> if Names(s, e) then e.newSession == session
                 else (exists i :: KnownSince(lost, before, i, session)) && LeavesKnown(lost, s, e, session)
  {
    assert (before + [e])[..|before|] == before;
    forall i: nat | i < |before| {
      KnownLonger(lost, before, e, i, session);
    }
    if Names(Run(lost, before), e) && e.newSession == session {
      assert KnownSince(lost, before + [e], |before|, session);
    } else if i :| KnownSince(lost, before, i, session) && LeavesKnown(lost, Run(lost, before), e, session) {
      assert KnownSince(lost, before + [e], i, session);
    }
  }

  /**
   * In every run the known session is exactly the last one named by a stream that was not
   * cancelled, unless since then the conversation was cleared or a stream that was not cancelled
   * reported an error that means the session is lost.
   */
  lemma {:induction false} SessionKnownIff(lost: string -> bool, es: seq<Event>, session: string)
    ensures Run(lost, es).sessionId == Some(session) <==> exists i :: KnownSince(lost, es, i, session)
    decreases |es|
  {
    if es != [] {
      SessionKnownIff(lost, es[..|es| - 1], session);
      StepSession(lost, Run(lost, es[..|es| - 1]), es[|es| - 1], session);
      KnownGrows(lost, es[..|es| - 1], es[|es| - 1], session);
      assert es == es[..|es| - 1] + [es[|es| - 1]];
    }
  }

  /**
   * What an error shows: its message, and in a reply that is still empty that the session has expired
   * if one is known and the message says so, or else the message; any other reply keeps its text.
   */
  lemma ErrorShows(lost: string -> bool, s: State, id: nat, message: string, i: nat)
    requires Hears(s, id) && i < |s.messages|
    ensures var s' := Step(lost, s, OnError(id, message));
            && s'.error == Some(message) && !s'.isStreaming && |s'.messages| == |s.messages|
            && s'.messages[i] ==
               if s.messages[i].id != id then s.messages[i]
               else s.messages[i].(streaming := Some(false), content :=
                      if s.messages[i].content != "" then s.messages[i].content
                      else if s.sessionId.Some? && s.sessionId.value != "" && lost(message) then
                        "This chat session has expired. Please send your message again to start a new session."
                      else "Sorry, something went wrong: " + message)
  {
  }

  // ----- Saving and restoring -----

  predicate Worthy(m: Message) {
    !m.role.Assistant? || Trim(m.content) != ""
  }

  function Keep(messages: seq<Message>): seq<Message> {
    if messages == [] then []
    else (if Worthy(messages[0]) then [messages[0]] else []) + Keep(messages[1..])
  }

  function Settled(m: Message): Message {
    if m.streaming == Some(true) then m.(streaming := Some(false)) else m
  }

  function SettleAll(messages: seq<Message>): seq<Message> {
    seq(|messages|, i requires 0 <= i < |messages| => Settled(messages[i]))
  }

  function StopAll(messages: seq<Message>): seq<Message> {
    seq(|messages|, i requires 0 <= i < |messages| => messages[i].(streaming := Some(false)))
  }

  datatype Saved = Saved(sessionId: Option<string>, messages: seq<Message>)

  function Partialize(s: State): Saved {
    Saved(s.sessionId, SettleAll(Keep(s.messages)))
  }

  /** Restoring what was saved into a fresh store. */
  function Merge(saved: Saved, current: State): State {
    current.(messages := StopAll(Keep(saved.messages)), sessionId := saved.sessionId,
             isStreaming := false, error := None, controller := None)
  }

  lemma {:induction false} KeepSettled(messages: seq<Message>)
    ensures Keep(SettleAll(messages)) == SettleAll(Keep(messages))
    decreases |messages|
  {
    if messages != [] {
      assert SettleAll(messages)[1..] == SettleAll(messages[1..]);
      KeepSettled(messages[1..]);
    }
  }

  lemma {:induction false} KeepStopped(messages: seq<Message>)
    ensures Keep(StopAll(messages)) == StopAll(Keep(messages))
    decreases |messages|
  {
    if messages != [] {
      assert StopAll(messages)[1..] == StopAll(messages[1..]);
      KeepStopped(messages[1..]);
    }
  }

  lemma {:induction false} KeepTwice(messages: seq<Message>)
    ensures Keep(Keep(messages)) == Keep(messages)
    decreases |messages|
  {
    if messages != [] {
      KeepTwice(messages[1..]);
      var rest := Keep(messages[1..]);
      if Worthy(messages[0]) {
        assert ([messages[0]] + rest)[1..] == rest;
      } else {
        assert [] + rest == rest;
      }
    }
  }

  lemma {:induction false} KeptAreWorthy(messages: seq<Message>)
    ensures forall m :: m in Keep(messages) ==> Worthy(m)
    decreases |messages|
  {
    if messages != [] {
      KeptAreWorthy(messages[1..]);
    }
  }

  function Reload(s: State): State {
    Merge(Partialize(s), EMPTY)
  }

  lemma StopsWorthy(kept: seq<Message>)
    requires forall m :: m in kept ==> Worthy(m)
    ensures forall m :: m in StopAll(kept) ==> Worthy(m) && m.streaming == Some(false)
  {
    forall m | m in StopAll(kept) ensures Worthy(m) && m.streaming == Some(false) {
      var i :| 0 <= i < |kept| && StopAll(kept)[i] == m;
      assert kept[i] in kept;
    }
  }

  /** A reply without text, or with blanks only. */
  predicate BlankReply(m: Message) {
    m.role.Assistant? && Trim(m.content) == ""
  }

  /** Which messages are kept: every blank reply goes, wherever it stands, and all others stay, in order. */
  lemma {:induction false} KeepsExactly(before: seq<Message>, m: Message, after: seq<Message>)
    ensures BlankReply(m) ==> Keep(before + [m] + after) == Keep(before + after)
    ensures (forall x :: x in before + after ==> !BlankReply(x)) ==> Keep(before + after) == before + after
    decreases |before|
  {
    if before == [] {
      assert (before + [m] + after)[1..] == after && before + after == after;
      if forall x :: x in after ==> !BlankReply(x) {
        NoneDropped(after);
      }
    } else {
      assert (before + [m] + after)[1..] == before[1..] + [m] + after && (before + after)[1..] == before[1..] + after;
      assert (before + [m] + after)[0] == (before + after)[0] == before[0];
      KeepsExactly(before[1..], m, after);
      if forall x :: x in before + after ==> !BlankReply(x) {
        NoneDropped(before + after);
      }
    }
  }

  lemma {:induction false} NoneDropped(messages: seq<Message>)
    requires forall x :: x in messages ==> !BlankReply(x)
    ensures Keep(messages) == messages
    decreases |messages|
  {
    if messages != [] {
      assert messages[0] in messages && messages == [messages[0]] + messages[1..];
      NoneDropped(messages[1..]);
    }
  }

  /** What is saved: the kept messages, none of them streaming any more, and the session. */
  lemma SavesSettled(s: State)
    ensures Partialize(s).sessionId == s.sessionId && |Partialize(s).messages| == |Keep(s.messages)|
    ensures forall i :: 0 <= i < |Keep(s.messages)| ==>
              var m := Keep(s.messages)[i];
              Partialize(s).messages[i] == Message(m.id, m.role, m.content, if m.streaming == Some(true) then Some(false) else m.streaming)
  {
  }

  /** Settling and stopping twice is stopping once. */
  lemma StopsOnce(kept: seq<Message>)
    ensures StopAll(SettleAll(kept)) == StopAll(kept) && SettleAll(StopAll(kept)) == StopAll(kept) && StopAll(StopAll(kept)) == StopAll(kept)
  {
    assert StopAll(SettleAll(kept)) == StopAll(kept);
    assert SettleAll(StopAll(kept)) == StopAll(kept);
    assert StopAll(StopAll(kept)) == StopAll(kept);
  }

  /**
   * A restart keeps the session and, in order and with their text, all messages but blank
   * replies; nothing is left streaming; and a second restart changes nothing.
   */
  lemma ReloadIsIdempotent(s: State)
    ensures Reload(s) == EMPTY.(messages := StopAll(Keep(s.messages)), sessionId := s.sessionId)
    ensures forall m :: m in Reload(s).messages ==> !BlankReply(m) && m.streaming == Some(false)
    ensures forall current :: Merge(Partialize(s), current) == Reload(s).(streams := current.streams, nextId := current.nextId)
    ensures Reload(Reload(s)) == Reload(s)
  {
    var kept := Keep(s.messages);
    KeepTwice(s.messages);
    KeptAreWorthy(s.messages);
    KeepSettled(kept);
    KeepStopped(kept);
    StopsOnce(kept);
    StopsWorthy(kept);
  }

  // ----- The store as an object -----

  class AssistantStore {
    var messages: seq<Message>
    var sessionId: Option<string>
    var isStreaming: bool
    var error: Option<string>
    var abortController: Option<nat>
    var streams: map<nat, Stream>
    var nextId: nat
    const lost: string -> bool

    function View(): State
      reads this
    {
      State(messages, sessionId, isStreaming, error, abortController, streams, nextId)
    }

    constructor (lost: string -> bool)
      ensures View() == EMPTY && this.lost == lost
    {
      messages, sessionId, isStreaming, error, abortController := [], None, false, None, None;
      streams, nextId := map[], 0;
      this.lost := lost;
    }

    method CancelStream()
      modifies this
      ensures View() == Step(lost, old(View()), Cancel)
    {
      if abortController.Some? && abortController.value in streams {
        streams := streams[abortController.value := streams[abortController.value].(aborted := true)];
      }
      abortController, isStreaming := None, false;
    }

    method Clear()
      modifies this
      ensures View() == Step(lost, old(View()), ClearConversation)
    {
      CancelStream();
      messages, sessionId, error := [], None, None;
    }

    method SendMessage(text: string)
      modifies this
      ensures View() == Step(lost, old(View()), Send(text))
    {
      var trimmed := Trim(text);
      if trimmed == "" || isStreaming {
        return;
      }
      var userMsg := Message(nextId, User, trimmed, None);
      var assistantMsg := Message(nextId + 1, Assistant, "", Some(true));
      nextId := nextId + 2;
      messages, isStreaming, error := messages + [userMsg, assistantMsg], true, None;
      streams := streams[assistantMsg.id := Stream(false, false)];
      abortController := Some(assistantMsg.id);
    }

    method OnToken(id: nat, token: string)
      requires id in streams
      modifies this
      ensures View() == Step(lost, old(View()), Event.OnToken(id, token))
    {
      if streams[id].aborted {
        return;
      }
      messages := Change(messages, id, Append(token));
    }

    method OnDone(id: nat)
      requires id in streams
      modifies this
      ensures View() == Step(lost, old(View()), Event.OnDone(id))
    {
      if streams[id].aborted {
        return;
      }
      isStreaming, abortController := false, None;
      streams := streams[id := streams[id].(finished := true)];
      messages := Change(messages, id, Finished());
    }

    method OnError(id: nat, message: string)
      requires id in streams
      modifies this
      ensures View() == Step(lost, old(View()), Event.OnError(id, message))
    {
      if streams[id].aborted {
        return;
      }
      var isSessionNotFound := sessionId.Some? && sessionId.value != "" && lost(message);
      isStreaming, abortController, error := false, None, Some(message);
      if isSessionNotFound {
        sessionId := None;
      }
      streams := streams[id := streams[id].(finished := true)];
      messages := Change(messages, id, Failed(ErrorText(isSessionNotFound, message)));
    }
  }
}
