/** The logic inside the desktop application (app.py): the note search
    filter, the checks and the context gathering of the "ask tutor" action,
    the chat view rebuilt from the stored history, and the settings form's
    record. Widgets are reduced to the state they hold: the rows of the notes
    list box and its selection, the text fields, the chat bubbles in order,
    and the error dialogs shown. */
module App {
  import opened Wrappers
  import opened Strings
  import Settings
  import Prompt
  import Tutor

  /** A topic row. Its description is a nullable column: the description
      dialog closed without OK stores NULL. */
  datatype Topic = Topic(id: int, name: string, description: Option<string>)
  datatype Note = Note(id: int, title: string, content: string)

  /** Which side of the chat a bubble is drawn on. */
  datatype Sender = UserSide | TutorSide
  datatype Bubble = Bubble(text: string, sender: Sender)

  const YouLabel := "👤 You:\n"
  const TutorLabel := "🤖 Tutor:\n"
  const NoTopicMessage := "Select a topic first."
  /** The model the settings form always saves. */
  const FormModel := "gpt-4o-mini"

  function UserBubble(content: string): Bubble
  {
    Bubble(YouLabel + content, UserSide)
  }

  function TutorBubble(content: string): Bubble
  {
    Bubble(TutorLabel + content, TutorSide)
  }

  /** How the chat view shows one stored message: a "user" message as the
      user's bubble, a message with any other role as the tutor's. */
  function MessageBubble(m: Tutor.Msg): Bubble
  {
    if m.role == Tutor.UserRole then UserBubble(m.content) else TutorBubble(m.content)
  }

  /** The bubbles the chat view shows for a stored log. */
  function BubblesOf(log: seq<Tutor.Msg>): (bs: seq<Bubble>)
    ensures |bs| == |log|
    ensures forall i :: 0 <= i < |log| ==> bs[i] == MessageBubble(log[i])
  {
    if log == [] then [] else BubblesOf(log[..|log| - 1]) + [MessageBubble(log[|log| - 1])]
  }

  /** After a successful turn, the chat view rebuilt from the stored history
      is the view of the old log followed by exactly the two bubbles the ask
      action drew: the question on the user's side, the answer on the
      tutor's. */
  lemma {:induction false} ReloadShowsTurn(h: Tutor.History, topic: int, question: string, answer: string)
    ensures var h' := Tutor.RecordTurn(h, topic, question, answer);
            BubblesOf(h'[topic]) == BubblesOf(Tutor.LogOf(h, topic)) + [UserBubble(question), TutorBubble(answer)]
  {
    var old_ := Tutor.LogOf(h, topic);
    var new_ := Tutor.RecordTurn(h, topic, question, answer)[topic];
    var lhs := BubblesOf(new_);
    var rhs := BubblesOf(old_) + [UserBubble(question), TutorBubble(answer)];
    forall i | 0 <= i < |lhs| ensures lhs[i] == rhs[i] {
      if i < |old_| {
        assert new_[i] == new_[..|old_|][i];
      }
    }
  }

  /** How the tutor's f-string shows a nullable text column: the text
      itself, or "None" for NULL. */
  function FieldText(v: Option<string>): string
  {
    v.GetOr("None")
  }

  /** A topic whose description is NULL reaches the tutor with the text
      "None" in the description slot of the instruction. */
  lemma {:induction false} NullDescriptionInPrompt(topic: Topic, titles: seq<string>, noteContent: string,
                                                   s: Settings.TutorSettings)
    requires topic.description.None?
    ensures OccursAt(Prompt.BuildPrompt(topic.name, FieldText(topic.description), titles, noteContent, s),
                     "None",
                     Offset(Prompt.PromptParts(topic.name, FieldText(topic.description), titles, noteContent, s), 3))
  {
    Prompt.PromptEmbedsContext(topic.name, FieldText(topic.description), titles, noteContent, s);
  }

  /** The search test: the lower-cased title contains the query, which the
      caller has lower-cased already. */
  predicate TitleMatches(n: Note, query: string)
  {
    Contains(Lower(n.title), query)
  }

  /** The search ignores ASCII case on both sides: titles that differ only
      in the case of their letters match the same searches, and so do
      search texts that differ only in case. */
  lemma {:induction false} SearchIgnoresCase(n: Note, m: Note, q1: string, q2: string)
    requires |n.title| == |m.title| && forall i :: 0 <= i < |n.title| ==> CaseVariants(n.title[i], m.title[i])
    requires |q1| == |q2| && forall i :: 0 <= i < |q1| ==> CaseVariants(q1[i], q2[i])
    ensures TitleMatches(n, Lower(q1)) <==> TitleMatches(m, Lower(q2))
  {
    LowerIgnoresCase(n.title, m.title);
    LowerIgnoresCase(q1, q2);
  }

  /** The notes the search keeps, in their original order. */
  function MatchingNotes(notes: seq<Note>, query: string): (r: seq<Note>)
    ensures |r| <= |notes|
    ensures forall n :: n in r <==> n in notes && TitleMatches(n, query)
  {
    if notes == [] then []
    else (if TitleMatches(notes[0], query) then [notes[0]] else []) + MatchingNotes(notes[1..], query)
  }

  /** Which notes the search keeps, position by position. */
  function MatchMask(notes: seq<Note>, query: string): (mask: seq<bool>)
    ensures |mask| == |notes|
    ensures forall i :: 0 <= i < |notes| ==> mask[i] == TitleMatches(notes[i], query)
  {
    seq(|notes|, i requires 0 <= i < |notes| => TitleMatches(notes[i], query))
  }

  /** The positions a mask marks, in increasing order. */
  function Marked(mask: seq<bool>): seq<nat>
  {
    if mask == [] then [] else (if mask[0] then [0] else []) + Shift(Marked(mask[1..]))
  }

  /** Every position moved one place on. */
  function Shift(positions: seq<nat>): (r: seq<nat>)
    ensures |r| == |positions|
    ensures forall k :: 0 <= k < |r| ==> r[k] == positions[k] + 1
  {
    seq(|positions|, k requires 0 <= k < |positions| => positions[k] + 1)
  }

  /** `Marked` lists marked positions only. */
  lemma {:induction false} MarkedSound(mask: seq<bool>)
    ensures forall k :: 0 <= k < |Marked(mask)| ==> Marked(mask)[k] < |mask| && mask[Marked(mask)[k]]
  {
    if mask != [] {
      var rest := Marked(mask[1..]);
      MarkedSound(mask[1..]);
      var head: seq<nat> := if mask[0] then [0] else [];
      var r := head + Shift(rest);
      assert r == Marked(mask);
      forall k | 0 <= k < |r| ensures r[k] < |mask| && mask[r[k]] {
        if k >= |head| {
          assert r[k] == rest[k - |head|] + 1;
          assert mask[1..][rest[k - |head|]] == mask[r[k]];
        }
      }
    }
  }

  /** `Marked` lists positions in strictly increasing order. */
  lemma {:induction false} MarkedIncreasing(mask: seq<bool>)
    ensures forall k :: 0 < k < |Marked(mask)| ==> Marked(mask)[k - 1] < Marked(mask)[k]
  {
    if mask != [] {
      var rest := Marked(mask[1..]);
      MarkedIncreasing(mask[1..]);
      var head: seq<nat> := if mask[0] then [0] else [];
      var r := head + Shift(rest);
      assert r == Marked(mask);
      forall k | 0 < k < |r| ensures r[k - 1] < r[k] {
        assert r[k] == rest[k - |head|] + 1;
        if k - 1 >= |head| {
          assert r[k - 1] == rest[k - 1 - |head|] + 1;
        }
      }
    }
  }

  /** `Marked` misses no marked position. */
  lemma {:induction false} MarkedComplete(mask: seq<bool>)
    ensures forall i :: 0 <= i < |mask| && mask[i] ==> i in Marked(mask)
  {
    if mask != [] {
      var rest := Marked(mask[1..]);
      MarkedComplete(mask[1..]);
      var head: seq<nat> := if mask[0] then [0] else [];
      var r := head + Shift(rest);
      assert r == Marked(mask);
      forall i | 0 <= i < |mask| && mask[i] ensures i in r {
        if i > 0 {
          assert mask[1..][i - 1];
          var j :| 0 <= j < |rest| && rest[j] == i - 1;
          assert r[|head| + j] == i;
        } else {
          assert r[0] == 0;
        }
      }
    }
  }

  /** The search result is the input read at the positions the match mask
      marks. */
  lemma {:induction false} MatchingNotesAtMarked(notes: seq<Note>, query: string)
    ensures |MatchingNotes(notes, query)| == |Marked(MatchMask(notes, query))|
    ensures forall k :: 0 <= k < |MatchingNotes(notes, query)| ==>
              Marked(MatchMask(notes, query))[k] < |notes|
              && MatchingNotes(notes, query)[k] == notes[Marked(MatchMask(notes, query))[k]]
  {
    var mask := MatchMask(notes, query);
    MarkedSound(mask);
    if notes != [] {
      MatchingNotesAtMarked(notes[1..], query);
      assert mask[1..] == MatchMask(notes[1..], query);
      var rest := Marked(mask[1..]);
      var tail := MatchingNotes(notes[1..], query);
      var head: seq<nat> := if mask[0] then [0] else [];
      var r := MatchingNotes(notes, query);
      var m := Marked(mask);
      assert r == (if mask[0] then [notes[0]] else []) + tail;
      assert m == head + Shift(rest);
      forall k | |head| <= k < |r| ensures r[k] == notes[m[k]] {
        assert m[k] == rest[k - |head|] + 1;
        assert r[k] == tail[k - |head|] == notes[1..][rest[k - |head|]];
      }
    }
  }

  /** The search keeps exactly the matching notes and keeps their order: its
      result is the input at a strictly increasing run of positions, and a
      position is in that run exactly when the note there matches. */
  lemma {:induction false} MatchingNotesPositions(notes: seq<Note>, query: string) returns (idx: seq<nat>)
    ensures |idx| == |MatchingNotes(notes, query)|
    ensures forall k :: 0 <= k < |idx| ==> idx[k] < |notes| && MatchingNotes(notes, query)[k] == notes[idx[k]]
    ensures forall k :: 0 < k < |idx| ==> idx[k - 1] < idx[k]
    ensures forall i :: 0 <= i < |notes| ==> (i in idx <==> TitleMatches(notes[i], query))
  {
    var mask := MatchMask(notes, query);
    idx := Marked(mask);
    MarkedSound(mask);
    MarkedIncreasing(mask);
    MarkedComplete(mask);
    MatchingNotesAtMarked(notes, query);
  }

  /** An empty query keeps every note. */
  lemma {:induction false} EmptyQueryKeepsAll(notes: seq<Note>)
    ensures MatchingNotes(notes, Lower("")) == notes
  {
    if notes != [] {
      ContainsEmpty(Lower(notes[0].title));
      EmptyQueryKeepsAll(notes[1..]);
    }
  }

  /** The titles of a list of notes, in order. */
  function Titles(notes: seq<Note>): (ts: seq<string>)
    ensures |ts| == |notes|
    ensures forall i :: 0 <= i < |notes| ==> ts[i] == notes[i].title
  {
    seq(|notes|, i requires 0 <= i < |notes| => notes[i].title)
  }

  /** The note text the ask action sends: empty with no selection, otherwise
      the content of the topic's note at the selected row's index. */
  function SelectedContent(notes: seq<Note>, selection: Option<nat>): string
    requires selection.Some? ==> selection.value < |notes|
  {
    match selection
    case None => ""
    case Some(i) => notes[i].content
  }

  /** The note text follows the row index into all of the topic's notes,
      not into the filtered rows the list box shows: with notes "Alpha" and
      "Beta" and the search text "b", the list box shows only "Beta", yet
      selecting that row sends the content of "Alpha". */
  lemma {:induction false} FilteredSelectionSendsOtherNote()
    ensures var notes := [Note(1, "Alpha", "alpha text"), Note(2, "Beta", "beta text")];
            var shown := MatchingNotes(notes, Lower("b"));
            shown == [notes[1]] && Titles(shown)[0] == "Beta"
            && SelectedContent(notes, Some(0)) == "alpha text" != shown[0].content
  {
    var notes := [Note(1, "Alpha", "alpha text"), Note(2, "Beta", "beta text")];
    assert Lower("b") == "b";
    assert Lower("Beta") == "beta";
    assert TitleMatches(notes[1], "b");
    assert Lower("Alpha") == "alpha";
    ContainsCharOnlyIfPresent("alpha", 'b');
    assert MatchingNotes(notes[1..], "b") == [notes[1]] + MatchingNotes(notes[2..], "b");
  }

  /** The position of the first topic with the given id, if any. */
  function FindTopic(topics: seq<Topic>, id: int): (r: Option<nat>)
    ensures r.Some? ==> r.value < |topics| && topics[r.value].id == id
                        && forall j :: 0 <= j < r.value ==> topics[j].id != id
    ensures r.None? ==> forall j :: 0 <= j < |topics| ==> topics[j].id != id
  {
    if topics == [] then None
    else if topics[0].id == id then Some(0)
    else match FindTopic(topics[1..], id)
         case None => None
         case Some(i) => Some(i + 1)
  }

  /** Python's truth test on the selected topic id: no selection, and the id
      0, both count as "no topic". */
  predicate TopicSelected(selected: Option<int>)
  {
    selected.Some? && selected.value != 0
  }

  /** The record the settings form saves: every key present, the model fixed. */
  function FormSettings(language: string, depth: string, temperature: real, maxTokens: int)
    : (s: Settings.TutorSettings)
    ensures Settings.Complete(s)
    ensures s.model == Some(FormModel)
    ensures s.language == Some(language) && s.depth == Some(depth)
    ensures s.temperature == Some(temperature) && s.maxTokens == Some(maxTokens)
  {
    Settings.TutorSettings(Some(language), Some(depth), Some(FormModel), Some(temperature), Some(maxTokens))
  }

  /** How the ask action ended. */
  datatype ActionStatus = NoTopic | EmptyQuestion | TopicMissing | TutorFailed | Answered(answer: string)

  class NotesApp {
    const history: Tutor.ChatHistoryStore
    const settings: Settings.SettingsStore
    var selectedTopicId: Option<int>
    var topics: seq<Topic>
    /** The selected topic's notes. */
    var notes: seq<Note>
    /** The titles the notes list box shows. */
    var listed: seq<string>
    /** The first selected row of the notes list box. */
    var selection: Option<nat>
    var searchText: string
    var tutorInput: string
    /** The chat view's bubbles, top to bottom. */
    var bubbles: seq<Bubble>
    /** The error dialogs shown, in order. */
    var errors: seq<string>

    /** The list box shows at most the topic's notes (all of them or a
        filtered subset), and its selection is one of its rows. */
    ghost predicate Valid()
      reads this
    {
      |listed| <= |notes| && (selection.Some? ==> selection.value < |listed|)
    }

    constructor (history: Tutor.ChatHistoryStore, settings: Settings.SettingsStore, topics: seq<Topic>)
      ensures Valid()
      ensures this.history == history && this.settings == settings && this.topics == topics
      ensures selectedTopicId == None && notes == [] && listed == [] && selection == None
      ensures searchText == "" && tutorInput == "" && bubbles == [] && errors == []
    {
      this.history := history;
      this.settings := settings;
      this.topics := topics;
      selectedTopicId := None;
      notes, listed, selection := [], [], None;
      searchText, tutorInput := "", "";
      bubbles, errors := [], [];
    }

    /** add_bubble: one more bubble at the bottom of the chat view. */
    method AddBubble(text: string, sender: Sender)
      modifies this`bubbles
      ensures bubbles == old(bubbles) + [Bubble(text, sender)]
    {
      bubbles := bubbles + [Bubble(text, sender)];
    }

    /** render_notes: the list box is emptied (which clears its selection)
        and shows the titles of `shown`, in order. */
    method RenderNotes(shown: seq<Note>)
      requires |shown| <= |notes|
      modifies this`listed, this`selection
      ensures listed == Titles(shown) && selection == None
      ensures Valid()
    {
      listed, selection := [], None;
      for i := 0 to |shown|
        invariant |listed| == i && selection == None
        invariant forall k :: 0 <= k < i ==> listed[k] == shown[k].title
      {
        listed := listed + [shown[i].title];
      }
    }

    /** filter_notes: the list box shows the titles of the notes whose
        lower-cased title contains the lower-cased search text. */
    method FilterNotes()
      modifies this`listed, this`selection
      ensures listed == Titles(MatchingNotes(notes, Lower(searchText))) && selection == None
      ensures Valid()
    {
      var text := Lower(searchText);
      var filtered := MatchingNotes(notes, text);
      RenderNotes(filtered);
    }

    /** load_chat_ui: the chat view is cleared and, when the history has an
        entry for the selected topic, shows one bubble per stored message in
        stored order; without an entry it stays empty. */
    method LoadChatUi()
      modifies this`bubbles
      ensures var h := Tutor.Loaded(history.file);
              bubbles == if selectedTopicId.Some? && selectedTopicId.value in h
                         then BubblesOf(h[selectedTopicId.value]) else []
    {
      bubbles := [];
      var h := history.Load();
      if selectedTopicId.None? || selectedTopicId.value !in h {
        return;
      }
      var log := h[selectedTopicId.value];
      for i := 0 to |log|
        invariant bubbles == BubblesOf(log[..i])
      {
        var m := log[i];
        if m.role == Tutor.UserRole {
          AddBubble(YouLabel + m.content, UserSide);
        } else {
          AddBubble(TutorLabel + m.content, TutorSide);
        }
        assert log[..i + 1][..i] == log[..i];
      }
      assert log[..|log|] == log;
    }

    /** save_settings: the form's values, with the fixed model, overwrite the
        stored settings. */
    method SaveSettings(language: string, depth: string, temperature: real, maxTokens: int)
      modifies settings
      ensures settings.file == Some(FormSettings(language, depth, temperature, maxTokens))
    {
      var record := FormSettings(language, depth, temperature, maxTokens);
      settings.Save(record);
    }

    /** ask_tutor_action. With no topic selected it shows an error and stops
        with nothing else changed; otherwise it strips the typed question and
        goes on as AskQuestion describes. */
    method AskTutorAction(llm: Tutor.ChatRequest -> Option<string>) returns (status: ActionStatus)
      requires Valid()
      modifies this`bubbles, this`tutorInput, this`errors, history, settings
      ensures Valid()
      ensures !TopicSelected(selectedTopicId) ==>
                status == NoTopic && errors == old(errors) + [NoTopicMessage]
                && bubbles == old(bubbles) && tutorInput == old(tutorInput)
                && history.file == old(history.file) && settings.file == old(settings.file)
      ensures TopicSelected(selectedTopicId) ==>
                errors == old(errors)
                && QuestionAsked(old(bubbles), old(tutorInput), old(history.file), old(settings.file),
                                 Strip(old(tutorInput)), llm, status)
    {
      if !TopicSelected(selectedTopicId) {
        errors := errors + [NoTopicMessage];
        return NoTopic;
      }
      var question := Strip(tutorInput);
      status := AskQuestion(question, llm);
    }

    /** What the action leaves behind once a topic is selected, given the
        state before it and the stripped question: a blank question changes
        nothing; otherwise the question is drawn, and then a topic missing
        from the topic list stops the action (the lookup raises) with nothing
        else changed, while a topic that is found is asked about as
        AskedAboutTopic says. */
    ghost predicate QuestionAsked(bubbles0: seq<Bubble>, input0: string,
                                  history0: Option<Tutor.History>,
                                  settings0: Option<Settings.TutorSettings>,
                                  question: string,
                                  llm: Tutor.ChatRequest -> Option<string>, status: ActionStatus)
      requires Valid() && TopicSelected(selectedTopicId)
      reads this, history, settings
    {
      if question == "" then
        status == EmptyQuestion && bubbles == bubbles0 && tutorInput == input0
        && history.file == history0 && settings.file == settings0
      else
        match FindTopic(topics, selectedTopicId.value)
        case None =>
          status == TopicMissing && bubbles == bubbles0 + [UserBubble(question)]
          && tutorInput == input0 && history.file == history0 && settings.file == settings0
        case Some(i) =>
          AskedAboutTopic(bubbles0, input0, history0, settings0, topics[i], question, llm, status)
    }

    /** The part of ask_tutor_action after the question is stripped: stop on
        a blank one, draw it, look the topic up and ask. */
    method AskQuestion(question: string, llm: Tutor.ChatRequest -> Option<string>)
      returns (status: ActionStatus)
      requires Valid() && TopicSelected(selectedTopicId)
      modifies this`bubbles, this`tutorInput, history, settings
      ensures Valid()
      ensures QuestionAsked(old(bubbles), old(tutorInput), old(history.file), old(settings.file),
                            question, llm, status)
    {
      if question == "" {
        return EmptyQuestion;
      }
      AddBubble(YouLabel + question, UserSide);
      var found := FindTopic(topics, selectedTopicId.value);
      if found.None? {
        return TopicMissing;
      }
      status := AskAboutTopic(topics[found.value], question, llm, old(bubbles));
    }

    /** What asking about `topic` leaves behind, given the state before the
        action: the settings file holds the loaded settings; the request
        carries the topic's name, its description as FieldText shows it,
        the titles of all the topic's notes and the selected note's text; on
        an answer both bubbles are drawn, the input is cleared and the turn
        is recorded; on a failure only the question's bubble is drawn and the
        history is untouched. */
    ghost predicate AskedAboutTopic(bubbles0: seq<Bubble>, input0: string,
                                    history0: Option<Tutor.History>,
                                    settings0: Option<Settings.TutorSettings>,
                                    topic: Topic, question: string,
                                    llm: Tutor.ChatRequest -> Option<string>, status: ActionStatus)
      requires Valid() && TopicSelected(selectedTopicId)
      reads this, history, settings
    {
      var s := Settings.Current(settings0);
      var h := Tutor.Loaded(history0);
      var reply := llm(Tutor.TurnRequest(h, selectedTopicId.value, topic.name, FieldText(topic.description),
                                         Titles(notes), SelectedContent(notes, selection), question, s));
      settings.file == Some(s)
      && (reply.None? ==>
            status == TutorFailed && bubbles == bubbles0 + [UserBubble(question)]
            && tutorInput == input0 && history.file == history0)
      && (reply.Some? ==>
            status == Answered(reply.value)
            && bubbles == bubbles0 + [UserBubble(question), TutorBubble(reply.value)]
            && tutorInput == ""
            && history.file == Some(Tutor.RecordTurn(h, selectedTopicId.value, question, reply.value)))
    }

    /** The rest of ask_tutor_action once the topic is found: gather the
        context, load the settings, ask the tutor, and draw the answer. */
    method AskAboutTopic(topic: Topic, question: string, llm: Tutor.ChatRequest -> Option<string>,
                         ghost bubbles0: seq<Bubble>)
      returns (status: ActionStatus)
      requires Valid() && TopicSelected(selectedTopicId)
      requires bubbles == bubbles0 + [UserBubble(question)]
      modifies this`bubbles, this`tutorInput, history, settings
      ensures Valid()
      ensures AskedAboutTopic(bubbles0, old(tutorInput), old(history.file),
                              old(settings.file), topic, question, llm, status)
    {
      var titles := Titles(notes);
      var content := "";
      if selection.Some? {
        content := notes[selection.value].content;
      }
      var s := settings.Load();
      var outcome := Tutor.AskTutor(history, selectedTopicId.value, topic.name, FieldText(topic.description),
                                    titles, content, question, s, llm);
      if outcome.Failed? {
        return TutorFailed;
      }
      AddBubble(TutorLabel + outcome.answer, TutorSide);
      tutorInput := "";
      status := Answered(outcome.answer);
    }
  }
}
