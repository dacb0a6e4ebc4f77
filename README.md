# AI tutor conversation logic

A Dafny model of the AI-tutor part of a personal notes application. Notes
are organised under topics. For a chosen topic the user can ask an AI tutor
questions. The tutor sees a system instruction built from the topic, its
note titles and the selected note, plus the topic's earlier conversation. Each
successful exchange is appended to a per-topic chat history file.

The model has six modules, one per concern:

- `Wrappers` (wrappers.dfy): the `Option` type. It stands for a dictionary
  key that may be absent and for a file that may be missing.
- `Strings` (strings.dfy): the Python string built-ins the code relies on.
  These are `str.isspace` and `str.strip`, `str.lower` (ASCII only), the
  substring test `in`, `str.join`, and the concatenation an f-string
  performs. Each comes with the lemmas that say what it computes.
- `Settings` (settings.py): the tutor settings record and the lazily
  defaulted settings file, as a class whose field is the file's content.
- `Prompt` (ai_tutor.py, `build_prompt`): the system instruction as the
  concatenation of the f-string's thirteen pieces.
- `Tutor` (ai_tutor.py): the chat history file as a class. The turn
  (`ask_tutor`) is an imperative method over it. The language model is a
  function parameter from the request to `Option<string>`, where `None`
  stands for a call that raised.
- `App` (app.py): the note search filter, the "ask tutor" action with its
  checks and context gathering, the chat view rebuilt from the history, and
  the settings form. Widgets are reduced to the state they hold: list box
  rows and selection, the text fields, the bubbles and the error dialogs.

`ask_tutor` keeps no retention limit: it appends the question and the
answer and writes the whole map back (ai_tutor.py:85-87). `Tutor.ReplayAppends`
proves that N successful turns grow a log by exactly 2N messages and keep the
old log as a prefix.

The note text sent with a question is taken as the code takes it: the list
box's selected row is used as an index into all of the topic's notes, even
when the list box shows a filtered subset (app.py:414-416). The validity
invariant keeps that index in range, but the content can belong to a note
other than the one highlighted; `App.FilteredSelectionSendsOtherNote` gives
an instance.

## Model

| member | source | states |
|---|---|---|
| Settings.SettingsStore.Load | settings.py:14-19 | With no file, it persists the default record and returns it. With a file, it returns the stored record and writes nothing. |
| Settings.SettingsStore.Save | settings.py:21-23 | The stored record becomes the given one, wholesale, with no merge. |
| Settings.FirstLoads | settings.py:6-17 | The first load ever returns the defaults: language "RO", depth "medium", model "gpt-4o-mini", temperature 0.5, max_tokens 300. A second load returns the same record. |
| Settings.LoadTwice | settings.py:14-19 | Two loads with no save between them return the same record, whatever the file held. |
| Settings.SaveThenLoad | settings.py:18-23 | A load after a save returns exactly the saved record, whatever the file held before. |
| Tutor.ChatHistoryStore.Load | ai_tutor.py:12-17 | A missing or unreadable history loads as the empty map; otherwise it loads the stored map. |
| Tutor.ChatHistoryStore.Save | ai_tutor.py:20-22 | The whole map overwrites the history file. |
| Tutor.TurnRequest | ai_tutor.py:63-80 | The request holds \|log\|+2 messages: the system message carrying the built prompt, then the topic's log unchanged, then the user's question. The model falls back to "gpt-4.1-mini", the temperature to 0.5 and max_tokens to 300. |
| Tutor.BuildMessages | ai_tutor.py:65-72 | The loop builds exactly [system] ++ log ++ [user question]. |
| Tutor.RecordTurn | ai_tutor.py:84-86 | The keys gain only the topic. The topic's log grows by 2 and keeps the old log as a prefix, followed by the user question and the assistant answer. Every other topic's log is unchanged. |
| Tutor.AskTutor | ai_tutor.py:57-89 | The model is called with exactly TurnRequest over the loaded history, with a missing topic counting as an empty log. A failed call leaves the file unchanged. An answer is returned and the file then holds RecordTurn of the loaded history. |
| Tutor.ReplayAppends | ai_tutor.py:85-87 | After N successful turns on one topic, its log is the old log followed by the N question/answer pairs, so its length is old+2N (nothing is trimmed). No other topic's presence or log changes. |
| Tutor.ReplayExtendsLog | ai_tutor.py:85-86 | After N turns, the topic's log is the old log followed by the exchanged messages in order. |
| Tutor.ReplayKeepsOtherTopics | ai_tutor.py:85-87 | N turns on one topic neither add, remove nor change any other topic's log. |
| Prompt.DepthPhrase | ai_tutor.py:32-36 | The phrase is non-empty exactly when the depth is short, medium or detailed. An unknown depth gives an empty phrase, not an error. |
| Prompt.DepthPhraseInjective | ai_tutor.py:32-36 | Two known depths give the same phrase exactly when they are the same depth. |
| Prompt.PromptEmbedsContext | ai_tutor.py:38-54 | The prompt opens with the fixed greeting and ends with the fixed closing line. The topic name, description, ", "-joined titles, note text, language and depth phrase each appear verbatim at their place. |
| Prompt.PromptListsEveryTitle | ai_tutor.py:45 | Every note title occurs verbatim in the prompt, at its offset inside the joined titles line. |
| Prompt.PromptWithoutTitles | ai_tutor.py:44-47 | With no titles the titles line is empty: the description block is followed directly by the note-fragment heading. |
| Prompt.PromptDefaults | ai_tutor.py:28-52 | A missing language key puts "RO" in the language slot. A missing depth key puts the "medium" phrase in the depth slot. An unknown depth leaves an empty bullet, so the prompt ends with "\n- " and the closing line. |
| Prompt.PromptSettingsDependence | ai_tutor.py:28-54 | With everything else equal, two prompts are equal exactly when their languages are equal, given equal depth phrases. Likewise they are equal exactly when their depth phrases are equal, given equal languages. |
| Strings.StripIsSlice | app.py:399 | The stripped question is a contiguous slice of the input, with only whitespace cut before and after it. It neither starts nor ends with whitespace. |
| Strings.StripEmptyIffBlank | app.py:399-401 | The stripped question is empty exactly when the input is all whitespace. |
| Strings.LowerIgnoresCase | app.py:499-500 | Two strings lower-case to the same string exactly when they have the same length and differ at most in the ASCII case of their letters. |
| Strings.LowerIsLowerCase | app.py:499-500 | A lower-cased string has no upper-case ASCII letter, and lower-casing it again changes nothing. |
| Strings.ContainsIffOccurs | app.py:500 | The substring test holds exactly when the query occurs at some position of the title. |
| Strings.JoinEmbeds | ai_tutor.py:45 | In a ", "-join, every item sits at its offset and a separator follows every item but the last. |
| App.MatchingNotes | app.py:500 | The result is no longer than the notes, and a note is in it exactly when it is among the notes and its lower-cased title contains the query. |
| App.MatchingNotesPositions | app.py:498-501 | The result is the input read at a strictly increasing run of positions. A position is in that run exactly when its note matches, so the filter keeps exactly the matching notes in their original order. |
| App.SearchIgnoresCase | app.py:499-500 | The search is case-insensitive on both sides: titles that differ only in ASCII case match the same searches, and so do search texts that differ only in case. |
| App.EmptyQueryKeepsAll | app.py:499-500 | An empty search keeps every note. |
| App.Titles | app.py:411 | One title per note, in the notes' order. |
| App.NullDescriptionInPrompt | app.py:421-429 | A topic whose description is NULL reaches the tutor with the text "None" in the instruction's description slot, as the f-string renders None. |
| App.FilteredSelectionSendsOtherNote | app.py:411-416 | With notes "Alpha" and "Beta" and the search text "b", the list box shows only "Beta", yet selecting that row sends the content of "Alpha". |
| App.FindTopic | app.py:410 | The lookup gives the first topic with the selected id. It gives none exactly when no topic has that id. |
| App.BubblesOf | app.py:67-74 | One bubble per stored message, in stored order. Role "user" gives the user's bubble; any other role gives the tutor's. |
| App.ReloadShowsTurn | app.py:67-74 | After a successful turn, the rebuilt chat view is the old view plus the question bubble and the answer bubble. These are exactly the two bubbles the ask action drew. |
| App.FormSettings | app.py:37-43 | The form's record has every key, holds the form's values, and always names the model "gpt-4o-mini". |
| App.NotesApp.SaveSettings | app.py:34-45 | The settings file then holds exactly the form's record. |
| App.NotesApp.AddBubble | app.py:301 | One bubble is added at the bottom of the chat view. |
| App.NotesApp.RenderNotes | app.py:493-496 | The list box shows the titles of the given notes in order, and its selection is cleared. |
| App.NotesApp.FilterNotes | app.py:498-501 | The list box shows the titles of the notes whose lower-cased title contains the lower-cased search text, and the list stays valid. |
| App.NotesApp.LoadChatUi | app.py:55-74 | The chat view holds BubblesOf the selected topic's stored log when the history has that topic. Otherwise it is empty. |
| App.NotesApp.AskTutorAction | app.py:394-437 | With no topic selected (None or the falsy id 0), one error is shown and nothing else changes. Otherwise it leaves the errors alone and behaves as QuestionAsked says for the stripped input. |
| App.NotesApp.AskQuestion | app.py:399-437 | A blank question changes nothing. Otherwise the question bubble is drawn. A topic missing from the topic list then stops the action with the stores untouched. A topic that is found is asked about. |
| App.NotesApp.AskAboutTopic | app.py:409-437 | The tutor receives the topic's name and its description (a NULL description shown as "None"), the titles of all the topic's notes, and the selected note's text ("" with no selection). The settings file then holds the loaded settings. An answer draws the answer bubble, clears the input and records the turn. A failure leaves the history and the input untouched. |

Some definitions carry no contract of their own; the rows above state
what they compute:

- `Prompt.BuildPrompt` (ai_tutor.py:28-54) by PromptEmbedsContext, PromptListsEveryTitle, PromptWithoutTitles, PromptDefaults and PromptSettingsDependence.
- `Prompt.LanguageOf` and `Prompt.DepthOf` (ai_tutor.py:29-30) by PromptDefaults.
- `Strings.Strip` (app.py:399) by StripIsSlice and StripEmptyIffBlank.
- `Strings.Lower` (app.py:499-500) by LowerIgnoresCase and LowerIsLowerCase.
- `Strings.Join` (ai_tutor.py:45) by JoinEmbeds and PromptWithoutTitles.
- `App.MessageBubble` (app.py:71-74) by BubblesOf and ReloadShowsTurn.
- `App.TopicSelected` (app.py:395) by AskTutorAction.
- `App.SelectedContent` (app.py:413-416) and `App.FieldText` (ai_tutor.py:39-42) by AskAboutTopic and NullDescriptionInPrompt.

## Left out

- The Tkinter user interface: layout, colours, scrolling, message boxes' appearance, the settings window, the typing-animation timer, and `modern_widgets.py` and `theme.py`.
- db.py (SQLite CRUD), and with it `load_topics`, `load_notes`, `on_topic_select`, `on_note_select` and the note and topic editing actions. Topics and notes are plain fields of the application object.
- The OpenAI client: the model is a function from the request to an optional answer. The network, the response structure, and a reply whose content is `None` are not modelled.
- JSON encoding and file I/O: each file is its decoded content, or `None` when missing. The history's string keys `str(topic_id)` are modelled by the integer id itself.
- A settings file that exists but cannot be parsed makes `load_settings` raise. The model's settings file is either absent or a record.
- The history entry under the key "None", which `load_chat_ui` would look up with no topic selected: no bubbles are shown then.
- Exceptions: a topic id missing from the topic list (`next` raising) and a failed model call become the action statuses `TopicMissing` and `TutorFailed`, leaving the state as the source leaves it at the raise.
- Floating-point temperature: it is a `real`. The form's `float()` and `int()` conversion errors are not modelled.
- Strings.Lower: maps only ASCII letters; Python's full Unicode case mapping is not modelled.
- Concurrency: the read-modify-write of the history file is modelled as a single writer.
