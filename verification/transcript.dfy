/** The live-conversation screen: the transcript the user sees, built from the fragments the
    session reports, and the microphone button that starts and ends a session. */
module Transcript {
  import opened Wrappers
  import LiveClient

  /** One speech bubble: its text and whether the user (rather than the model or the
      screen itself) produced it. */
  datatype Log = Log(text: string, isUser: bool)

  function Last(logs: seq<Log>): Log
    requires |logs| > 0
  {
    logs[|logs| - 1]
  }

  /** The updater the fragment callback passes to `setLogs`: a fragment from the same
      speaker as the last bubble is appended to that bubble's text; any other fragment,
      and any fragment on an empty transcript, opens a new bubble. */
  function Merge(logs: seq<Log>, text: string, isUser: bool): (r: seq<Log>)
    ensures |logs| > 0 && Last(logs).isUser == isUser ==>
      |r| == |logs| && Last(r) == Log(Last(logs).text + text, isUser)
    ensures !(|logs| > 0 && Last(logs).isUser == isUser) ==>
      |r| == |logs| + 1 && r[..|logs|] == logs && Last(r) == Log(text, isUser)
    ensures forall i | 0 <= i < |logs| - 1 :: r[i] == logs[i]
  {
    if |logs| > 0 && Last(logs).isUser == isUser then
      logs[..|logs| - 1] + [Log(Last(logs).text + text, isUser)]
    else
      logs + [Log(text, isUser)]
  }

  /** Everything said so far, bubble after bubble. */
  function AllText(logs: seq<Log>): string
  {
    if |logs| == 0 then "" else AllText(logs[..|logs| - 1]) + Last(logs).text
  }

  /** No two neighbouring bubbles have the same speaker. */
  predicate Alternating(logs: seq<Log>)
  {
    forall i | 0 <= i < |logs| - 1 :: logs[i].isUser != logs[i + 1].isUser
  }

  /** A fragment lands at the very end of the transcript text: nothing is lost, reordered or
      duplicated. */
  lemma MergeAppendsText(logs: seq<Log>, text: string, isUser: bool)
    ensures AllText(Merge(logs, text, isUser)) == AllText(logs) + text
  {
    var r := Merge(logs, text, isUser);
    if |logs| > 0 && Last(logs).isUser == isUser {
      assert r[..|r| - 1] == logs[..|logs| - 1];
    } else {
      assert r[..|r| - 1] == logs;
    }
  }

  /** Merging keeps neighbouring bubbles on different speakers. */
  lemma MergePreservesAlternation(logs: seq<Log>, text: string, isUser: bool)
    requires Alternating(logs)
    ensures Alternating(Merge(logs, text, isUser))
  {
    var r := Merge(logs, text, isUser);
    forall i | 0 <= i < |r| - 1 ensures r[i].isUser != r[i + 1].isUser {
      if i + 1 < |logs| - 1 || (i + 1 == |logs| - 1 && !(Last(logs).isUser == isUser)) {
        assert r[i] == logs[i] && r[i + 1] == logs[i + 1];
      }
    }
  }

  /** The transcript after a run of fragments, in arrival order. */
  function MergeAll(logs: seq<Log>, fragments: seq<LiveClient.Fragment>): (r: seq<Log>)
    ensures |logs| <= |r| <= |logs| + |fragments|
    decreases |fragments|
  {
    if |fragments| == 0 then logs
    else MergeAll(Merge(logs, fragments[0].text, fragments[0].isUser), fragments[1..])
  }

  function FragmentText(fragments: seq<LiveClient.Fragment>): string
  {
    if |fragments| == 0 then "" else fragments[0].text + FragmentText(fragments[1..])
  }

  /** The transcript text grows by exactly the fragments' texts, in arrival order, and the
      speakers keep alternating. */
  lemma {:induction false} MergeAllKeepsOrder(logs: seq<Log>, fragments: seq<LiveClient.Fragment>)
    ensures AllText(MergeAll(logs, fragments)) == AllText(logs) + FragmentText(fragments)
    ensures Alternating(logs) ==> Alternating(MergeAll(logs, fragments))
    decreases |fragments|
  {
    if |fragments| > 0 {
      var f := fragments[0];
      var next := Merge(logs, f.text, f.isUser);
      MergeAppendsText(logs, f.text, f.isUser);
      if Alternating(logs) {
        MergePreservesAlternation(logs, f.text, f.isUser);
      }
      MergeAllKeepsOrder(next, fragments[1..]);
    }
  }

  // ---------------------------------------------------------------------------
  // the microphone button
  // ---------------------------------------------------------------------------

  const SessionEnded: string := "Session ended."
  const Connecting: string := "Connecting to Gemini Live..."
  const Connected: string := "Connected! Start speaking."
  const ConnectionFailed: string := "Connection failed."

  /** The screen: whether a session is live, the transcript, and the client it created. */
  datatype Screen = Screen(active: bool, logs: seq<Log>, client: Option<LiveClient.Client>)

  /** `toggle()`. A live session is disconnected and ended with a status line. Otherwise a
      status line announces the attempt, a new client connects (`micGranted` is the
      microphone permission it asks for), and a second status line reports the outcome;
      only a successful connection makes the screen live. Status lines are appended, never
      merged. */
  function Toggle(s: Screen, micGranted: bool): (t: Screen)
    ensures s.active ==>
      && !t.active
      && t.logs == s.logs + [Log(SessionEnded, false)]
      && (t.client.Some? <==> s.client.Some?)
      && (t.client.Some? ==> !t.client.value.isConnected && !t.client.value.hasSession)
    ensures !s.active ==>
      && t.active == micGranted
      && |t.logs| == |s.logs| + 2
      && t.logs[..|s.logs|] == s.logs
      && t.logs[|s.logs|] == Log(Connecting, false)
      && t.logs[|s.logs| + 1] == Log(if micGranted then Connected else ConnectionFailed, false)
      && t.client.Some?
  {
    if s.active then
      var client := match s.client
        case None => None
        case Some(c) => Some(LiveClient.Disconnect(c));
      Screen(false, s.logs + [Log(SessionEnded, false)], client)
    else
      var connecting := s.logs + [Log(Connecting, false)];
      var outcome := LiveClient.Connect(LiveClient.New(), micGranted);
      if outcome.ok then Screen(true, connecting + [Log(Connected, false)], Some(outcome.client))
      else Screen(false, connecting + [Log(ConnectionFailed, false)], Some(outcome.client))
  }

  /** A fragment reported by the live session. */
  function OnFragment(s: Screen, f: LiveClient.Fragment): (t: Screen)
    ensures t.active == s.active && t.client == s.client
    ensures AllText(t.logs) == AllText(s.logs) + f.text
  {
    MergeAppendsText(s.logs, f.text, f.isUser);
    s.(logs := Merge(s.logs, f.text, f.isUser))
  }

  /** Status lines carry the model's speaker flag, so the model's first words after a
      successful connection are glued onto the "Connected!" line rather than opening a
      bubble of their own. */
  lemma ModelSpeechJoinsConnectedLine(logs: seq<Log>, client: Option<LiveClient.Client>, words: string)
    ensures var t := Toggle(Screen(false, logs, client), true);
      var u := OnFragment(t, LiveClient.Fragment(words, false));
      |u.logs| == |logs| + 2 && Last(u.logs) == Log(Connected + words, false)
  {
  }

  /** For the same reason, ending a session right after the model spoke leaves two model-side
      bubbles next to each other: the status lines do not keep the alternation that merging
      keeps. */
  lemma SessionEndedBreaksAlternation(s: Screen)
    requires s.active && |s.logs| > 0 && !Last(s.logs).isUser
    ensures !Alternating(Toggle(s, false).logs)
  {
    var t := Toggle(s, false).logs;
    assert t[|s.logs| - 1] == Last(s.logs) && t[|s.logs|] == Log(SessionEnded, false);
  }
}
