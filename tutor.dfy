/** One question-and-answer turn with the AI tutor and the per-topic chat
    history it keeps (ask_tutor, load_chat_history and save_chat_history in
    ai_tutor.py). */
module Tutor {
  import opened Wrappers
  import opened Settings
  import Prompt

  const SystemRole := "system"
  const UserRole := "user"
  const AssistantRole := "assistant"

  /** One `{role, content}` entry of a conversation. The role is kept as the
      text the JSON file holds. */
  datatype Msg = Msg(role: string, content: string)

  /** The history file's content: topic id to that topic's messages, oldest
      first. */
  type History = map<int, seq<Msg>>

  // What the model call falls back on when a settings key is absent.
  const DefaultModel := "gpt-4.1-mini"
  const DefaultTemperature: real := 0.5
  const DefaultMaxTokens := 300

  /** The arguments of one chat-completion call. */
  datatype ChatRequest = ChatRequest(model: string, messages: seq<Msg>, temperature: real, maxTokens: int)

  /** What ask_tutor ends with: the answer it returns, or the failure the
      model call raised. */
  datatype TurnOutcome = Answered(answer: string) | Failed

  /** A topic's log; a topic with no entry has the empty log. */
  function LogOf(h: History, topic: int): seq<Msg>
  {
    if topic in h then h[topic] else []
  }

  /** What load_chat_history returns for a file: `None` is a file that is
      missing or cannot be read, and loads as the empty history. */
  function Loaded(file: Option<History>): History
  {
    file.GetOr(map[])
  }

  /** The chat-history file. */
  class ChatHistoryStore {
    var file: Option<History>

    constructor (initial: Option<History>)
      ensures file == initial
    {
      file := initial;
    }

    /** load_chat_history: the stored map, or the empty map when the file is
        missing or unreadable. */
    method Load() returns (h: History)
      ensures file.None? ==> h == map[]
      ensures file.Some? ==> h == file.value
    {
      if file.None? {
        h := map[];
      } else {
        h := file.value;
      }
    }

    /** save_chat_history: the whole map overwrites the file. */
    method Save(h: History)
      modifies this
      ensures file == Some(h)
    {
      file := Some(h);
    }
  }

  /** The call a turn makes: the model, temperature and token budget from the
      settings (with their fallbacks), and the messages: the system
      instruction, then the topic's log in order, then the question. */
  function TurnRequest(h: History, topic: int, name: string, description: string,
                       titles: seq<string>, noteContent: string, question: string,
                       s: TutorSettings): (r: ChatRequest)
    ensures |r.messages| == |LogOf(h, topic)| + 2
    ensures r.messages[0] == Msg(SystemRole, Prompt.BuildPrompt(name, description, titles, noteContent, s))
    ensures r.messages[1..|r.messages| - 1] == LogOf(h, topic)
    ensures r.messages[|r.messages| - 1] == Msg(UserRole, question)
    ensures s.model.None? ==> r.model == DefaultModel
    ensures s.model.Some? ==> r.model == s.model.value
    ensures r.temperature == s.temperature.GetOr(DefaultTemperature)
    ensures r.maxTokens == s.maxTokens.GetOr(DefaultMaxTokens)
  {
    var system := Msg(SystemRole, Prompt.BuildPrompt(name, description, titles, noteContent, s));
    var messages := [system] + LogOf(h, topic) + [Msg(UserRole, question)];
    assert messages[1..|messages| - 1] == LogOf(h, topic);
    ChatRequest(s.model.GetOr(DefaultModel), messages,
                s.temperature.GetOr(DefaultTemperature), s.maxTokens.GetOr(DefaultMaxTokens))
  }

  /** The history after a successful turn: the topic's log gains the question
      and the answer at its end, nothing is dropped, and every other topic is
      left as it was. */
  function RecordTurn(h: History, topic: int, question: string, answer: string): (h': History)
    ensures h'.Keys == h.Keys + {topic}
    ensures forall t :: t in h && t != topic ==> h'[t] == h[t]
    ensures |h'[topic]| == |LogOf(h, topic)| + 2
    ensures h'[topic][..|LogOf(h, topic)|] == LogOf(h, topic)
    ensures h'[topic][|LogOf(h, topic)|] == Msg(UserRole, question)
    ensures h'[topic][|LogOf(h, topic)| + 1] == Msg(AssistantRole, answer)
  {
    var log := LogOf(h, topic) + [Msg(UserRole, question), Msg(AssistantRole, answer)];
    assert log[..|LogOf(h, topic)|] == LogOf(h, topic);
    h[topic := log]
  }

  /** The messages sent to the model, built as ask_tutor builds them: the
      system instruction, each logged message appended in turn, then the
      question. */
  method BuildMessages(system: string, log: seq<Msg>, question: string) returns (messages: seq<Msg>)
    ensures messages == [Msg(SystemRole, system)] + log + [Msg(UserRole, question)]
  {
    messages := [Msg(SystemRole, system)];
    for i := 0 to |log|
      invariant messages == [Msg(SystemRole, system)] + log[..i]
    {
      messages := messages + [log[i]];
      assert log[..i + 1] == log[..i] + [log[i]];
    }
    assert log[..|log|] == log;
    messages := messages + [Msg(UserRole, question)];
  }

  /** ask_tutor. The model is `llm`, a function from the request to an answer,
      `None` standing for a call that raised. The turn loads the history,
      sends the request TurnRequest describes, and only when an answer comes
      back records the turn and writes the whole map; a failed call writes
      nothing. */
  method AskTutor(store: ChatHistoryStore, topic: int, name: string, description: string,
                  titles: seq<string>, noteContent: string, question: string,
                  s: TutorSettings, llm: ChatRequest -> Option<string>)
    returns (outcome: TurnOutcome)
    modifies store
    ensures var h := Loaded(old(store.file));
            var reply := llm(TurnRequest(h, topic, name, description, titles, noteContent, question, s));
            (reply.None? ==> outcome == Failed && store.file == old(store.file))
            && (reply.Some? ==> outcome == Answered(reply.value)
                                && store.file == Some(RecordTurn(h, topic, question, reply.value)))
  {
    var history := store.Load();
    ghost var loaded := history;
    if topic !in history {
      history := history[topic := []];
    }
    assert history[topic] == LogOf(loaded, topic);
    var system := Prompt.BuildPrompt(name, description, titles, noteContent, s);
    var messages := BuildMessages(system, history[topic], question);
    var request := ChatRequest(s.model.GetOr(DefaultModel), messages,
                               s.temperature.GetOr(DefaultTemperature),
                               s.maxTokens.GetOr(DefaultMaxTokens));
    assert request == TurnRequest(loaded, topic, name, description, titles, noteContent, question, s);
    var reply := llm(request);
    if reply.None? {
      return Failed;
    }
    var answer := reply.value;
    history := history[topic := history[topic] + [Msg(UserRole, question)]];
    history := history[topic := history[topic] + [Msg(AssistantRole, answer)]];
    var pair := [Msg(UserRole, question), Msg(AssistantRole, answer)];
    assert history[topic] == LogOf(loaded, topic) + pair;
    assert history == loaded[topic := LogOf(loaded, topic) + pair];
    store.Save(history);
    outcome := Answered(answer);
  }

  /** The history after a run of successful turns on one topic, each an
      (question, answer) pair, oldest first. */
  function Replay(h: History, topic: int, turns: seq<(string, string)>): History
    decreases |turns|
  {
    if turns == [] then h
    else Replay(RecordTurn(h, topic, turns[0].0, turns[0].1), topic, turns[1..])
  }

  /** The messages a run of turns adds: each question then its answer. */
  function Exchanges(turns: seq<(string, string)>): seq<Msg>
  {
    if turns == [] then []
    else [Msg(UserRole, turns[0].0), Msg(AssistantRole, turns[0].1)] + Exchanges(turns[1..])
  }

  /** N successful turns grow the topic's log by exactly 2N messages, the old
      log stays its prefix (no retention limit trims it), and no other topic
      changes. */
  lemma ReplayAppends(h: History, topic: int, turns: seq<(string, string)>)
    ensures LogOf(Replay(h, topic, turns), topic) == LogOf(h, topic) + Exchanges(turns)
    ensures |LogOf(Replay(h, topic, turns), topic)| == |LogOf(h, topic)| + 2 * |turns|
    ensures forall t :: t != topic ==> (t in Replay(h, topic, turns) <==> t in h)
                                       && LogOf(Replay(h, topic, turns), t) == LogOf(h, t)
  {
    ReplayExtendsLog(h, topic, turns);
    ExchangesLength(turns);
    ReplayKeepsOtherTopics(h, topic, turns);
  }

  lemma {:induction false} ReplayExtendsLog(h: History, topic: int, turns: seq<(string, string)>)
    ensures LogOf(Replay(h, topic, turns), topic) == LogOf(h, topic) + Exchanges(turns)
    decreases |turns|
  {
    if turns != [] {
      var h1 := RecordTurn(h, topic, turns[0].0, turns[0].1);
      ReplayExtendsLog(h1, topic, turns[1..]);
      var pair := [Msg(UserRole, turns[0].0), Msg(AssistantRole, turns[0].1)];
      assert LogOf(h1, topic) == LogOf(h, topic) + pair;
      assert LogOf(h, topic) + pair + Exchanges(turns[1..]) == LogOf(h, topic) + Exchanges(turns);
    }
  }

  lemma {:induction false} ReplayKeepsOtherTopics(h: History, topic: int, turns: seq<(string, string)>)
    ensures forall t :: t != topic ==> (t in Replay(h, topic, turns) <==> t in h)
                                       && LogOf(Replay(h, topic, turns), t) == LogOf(h, t)
    decreases |turns|
  {
    if turns != [] {
      var h1 := RecordTurn(h, topic, turns[0].0, turns[0].1);
      ReplayKeepsOtherTopics(h1, topic, turns[1..]);
    }
  }

  lemma {:induction false} ExchangesLength(turns: seq<(string, string)>)
    ensures |Exchanges(turns)| == 2 * |turns|
  {
    if turns != [] {
      ExchangesLength(turns[1..]);
    }
  }
}
