# ollama-chatter, modelled in Dafny

ollama-chatter is a one-page chat front end for a local Ollama server. This
project models the page's logic and proves properties about it:

- **`parse_thinking`** splits a model reply into the "thinking" sections it
  embeds and the main answer. It uses four regular expressions, each of the
  form `open(.*?)close` with literal markers, searched with DOTALL.
  - Module `Segmenter` has a specification of what those regular expressions
    find: `Scan`, which is proved to be finditer's leftmost, lazy,
    non-overlapping search (`ScanIsFinditer`).
  - `Segmenter` also has a specification of the result, `Segment`.
  - `ParseThinking` is the imperative method with the source's two nested
    loops, proved to compute `Segment`.
  - `SegmenterLemmas` states what the result is: one stripped entry per
    match, pattern by pattern, and a main text that never grows.
- **The Python string primitives `parse_thinking` relies on** are in module
  `Text`:
  - `str.strip()`, with the full `str.isspace()` character set;
  - literal substring search;
  - `str.replace(old, '')`.
- **`OllamaClient`** (module `Gateway`):
  - listing the installed models;
  - sending a chat request. This puts a truthy system prompt at the head of
    the caller's message list in place, and sends the list unstreamed.
  - The HTTP reply is a parameter: the model says what each possible reply
    leads to.
- **The session** (module `Session`):
  - the fallback model list;
  - the Clear Chat button;
  - one chat turn. It appends the user's message, sends a copy of the
    history and appends the answer only when it is truthy.
  - The history invariant: no system message ever enters the history.

## Model

| member | source | states |
|---|---|---|
| Text.IsSpace | main.py:62 | the characters `str.strip()` removes: exactly those for which `str.isspace()` holds, including the Unicode separators and the ASCII file, group, record and unit separators |
| Text.LeadingSpace | main.py:62 | the whitespace run that `strip()` removes from the front ends at a non-whitespace character or at the end of the string |
| Text.TrailingSpace | main.py:62 | the same for the whitespace run at the back |
| Text.LeadingSpaceRun | main.py:62 | that front run is all whitespace |
| Text.TrailingSpaceRun | main.py:62 | that back run is all whitespace |
| Text.Strip | main.py:62 | `str.strip()`: the result has no whitespace at either end and is no longer than its input |
| Text.StripShape | main.py:62 | `strip()` keeps one piece of its input and removes only whitespace before and after it |
| Text.StripUnique | main.py:64 | a stripped string surrounded by whitespace strips back to exactly itself, so StripShape determines the result |
| Text.AllSpaceRun | main.py:62 | an all-whitespace string strips to nothing |
| Text.LeadingSpaceOf | main.py:62 | whitespace followed by a non-whitespace character loses exactly that whitespace at the front |
| Text.TrailingSpaceOf | main.py:62 | the same at the back |
| Text.FirstOccurrence | main.py:60 | the first position at or after a start where a literal occurs, or none |
| Text.FirstOccurrenceExists | main.py:60 | every search has a first occurrence or definitely none |
| Text.LeastOccurrence | main.py:60 | an occurrence at or after the start implies a first one |
| Text.FirstOccurrenceUnique | main.py:60 | the first occurrence is unique |
| Text.Find | main.py:60 | the scanning loop returns exactly the first occurrence at or after the start, or none when there is none |
| Text.RemoveAll | main.py:64 | `str.replace(old, '')` never lengthens its input. It changes nothing when `old` does not occur, and removes at least one copy of `old` when it does |
| Text.RemoveAllFirst | main.py:64 | `str.replace(old, '')` keeps everything before the first occurrence of `old`, deletes that occurrence and carries on with the rest. With the no-occurrence case of RemoveAll this fixes the result for every input: every non-overlapping occurrence, left to right, is deleted and nothing else |
| Text.RemoveAllKeeps | main.py:64 | every character before the first occurrence of `old` is kept, in order |
| Text.RemoveAllStep | main.py:64 | a character that does not start an occurrence of `old` is kept |
| Segmenter.MatchesAt | main.py:49-54 | with DOTALL, `open(.*?)close` matches at a position exactly when the opener starts there and a closer starts somewhere after it |
| Segmenter.IsFirstMatch | main.py:60 | the match a search returns: the leftmost position where the pattern matches, and, the group being lazy, the first closer after the opener |
| Segmenter.IsFinditer | main.py:60 | what `re.finditer` yields: the first match from the search start, then what it yields from that match's end; when it yields nothing, the pattern matches nowhere from there |
| Segmenter.Scan | main.py:60 | `re.finditer` for one pattern: the first opener, then the first closer after it, repeated from the end of each match |
| Segmenter.ScanIsFinditer | main.py:60 | what Scan yields is finditer's result. Each match is the leftmost match from where the last one ended, with a lazy group. After the last match the pattern matches nowhere |
| Segmenter.FirstMatchFound | main.py:60 | the first opener with a closer after it starts the leftmost match |
| Segmenter.UnclosedStopsSearch | main.py:60 | when the first opener has no closer after it, the pattern matches nowhere from there on |
| Segmenter.ScanInText | main.py:60-62 | every match and its group lie inside the reply |
| Segmenter.SpansOf | main.py:59-60 | the matches of a list of patterns, pattern by pattern, all inside the reply |
| Segmenter.AllSpans | main.py:49-60 | the matches of the four patterns (`ThinkingPatterns`, the markers of main.py:49-54 with the regex escapes resolved) in their listed order |
| Segmenter.ThinkingOf | main.py:61-62 | the thinking entries a sequence of matches produces, one stripped group per match; ThinkingOfEntries states them |
| Segmenter.MainOf | main.py:57-64 | the working copy after each match in turn has been removed with `replace` and the result stripped, starting from the unstripped reply; MainOfShrinks states its bounds |
| Segmenter.Segment | main.py:56-66 | what `parse_thinking` returns for a reply: ThinkingOf and MainOf of all its matches. ParseThinking computes it; SegmentThinking, SegmentNoMatch and SegmentMain state what it holds |
| Segmenter.ScanStep | main.py:60-61 | a found opener and closer are the next match, and the search goes on from the match's end |
| Segmenter.ScanStopsUnopened | main.py:60-61 | no opener left means finditer yields nothing more |
| Segmenter.ScanStopsUnclosed | main.py:60-61 | an opener without a closer means finditer yields nothing more |
| Segmenter.SegmentStep | main.py:61-64 | handling one more match appends its stripped group to the thinking list, and removes the match from the main text then strips it |
| Segmenter.ScanAdvance | main.py:60-61 | one iteration of the match loop keeps "matches handled + matches left = all matches" |
| Segmenter.HandlePattern | main.py:60-64 | the inner loop over one pattern's matches leaves the thinking list and main text that `Segment` prescribes once those matches are handled |
| Segmenter.ParseThinking | main.py:46-66 | `parse_thinking` returns exactly `Segment(text)` |
| SegmenterLemmas.FinditerShape | main.py:60 | finditer's matches start at or after the search start and are real matches: an opener at the start, a closer at the group's end. They come in increasing position and do not overlap |
| SegmenterLemmas.ScanShape | main.py:60 | one pattern's matches over the whole reply are real matches: an opener at the start, a closer at the group's end, the group between them. They come in increasing position and do not overlap |
| SegmenterLemmas.ScanEmptyIff | main.py:60 | a pattern yields no match if and only if it matches nowhere in the reply |
| SegmenterLemmas.AllSpansByPattern | main.py:49-60 | all matches of the first pattern come first, then the second's, the third's and the fourth's |
| SegmenterLemmas.SpansOfFour | main.py:59-60 | the matches of four patterns are their scans concatenated in order |
| SegmenterLemmas.SpansOfSnoc | main.py:59-60 | adding a pattern at the end adds its matches at the end |
| SegmenterLemmas.ThinkingOfEntries | main.py:61-62 | there is one thinking entry per match, in match order, and each is its match's stripped group, even when removing the match did nothing |
| SegmenterLemmas.ThinkingOfLength | main.py:61-62 | every match handled adds exactly one thinking entry |
| SegmenterLemmas.ThinkingOfAt | main.py:61-62 | the thinking entry at each position is the stripped group of the match at that position |
| SegmenterLemmas.MainOfShrinks | main.py:57-64 | the main text is never longer than the reply. After one match it is stripped and at least the first match's length shorter |
| SegmenterLemmas.SegmentThinking | main.py:56-62 | `parse_thinking`'s thinking list has one stripped entry per match found, in order |
| SegmenterLemmas.SegmentNoMatch | main.py:56-66 | the thinking list is empty if and only if no pattern matches anywhere, and then the reply comes back unchanged and unstripped |
| SegmenterLemmas.SegmentMain | main.py:57-66 | `parse_thinking`'s main text is no longer than the reply. Once a match was found it is stripped and shorter by at least the first match |
| Gateway.Truthy | main.py:26 | Python truthiness of an optional string: present and non-empty, as `if system_prompt:`, `if prompt :=` and `if response:` test it |
| Gateway.IsHttpError | main.py:40 | `raise_for_status()` raises exactly for statuses 400 to 599 |
| Gateway.SystemPrefix | main.py:26-30 | a system message is added exactly when the system prompt is truthy, and it holds that prompt |
| Gateway.NamesOf | main.py:16 | the list comprehension succeeds exactly when every record has a name, and then gives the names in order |
| Gateway.ListedModels | main.py:12-15 | the model records are reached only for a 200 reply whose JSON body is an object with a `models` key |
| Gateway.ChatOutcome | main.py:38-44 | `chat` returns text exactly when the server answered with a status below 400 or from 600 up and the body held `message.content`, and then returns that content |
| Gateway.MessageList.constructor | main.py:134 | `messages.copy()` is a new list with the same messages |
| Gateway.MessageList.InsertFirst | main.py:27-30 | `insert(0, ...)` puts the message at the head of the list and keeps the rest in order |
| Gateway.OllamaClient.constructor | main.py:7-8 | the client keeps the base URL it was given |
| Gateway.OllamaClient.AvailableModels | main.py:10-20 | `get_available_models` gives `[]` on every failure: no answer, a status other than 200, an unreadable body, no `models` key or a record without a name. Otherwise it gives every listed name in order |
| Gateway.OllamaClient.Chat | main.py:22-44 | posts to `<base>/chat`. The caller's list gains the system message at its head exactly when the prompt is truthy. The payload carries that list and `stream` false. The result is ChatOutcome of the reply |
| Session.ModelOptions | main.py:101-103 | the selector always has options: the installed models, or `["llama2"]` when there are none |
| Session.OfferedModels | main.py:101-103 | every offered model is a name the server listed in a 200 reply, or the fallback. Every failed listing offers only the fallback |
| Session.WellFormedHistory | main.py:126-139 | the histories the page builds: no system message, no empty message, and every assistant answer right after a user message |
| Session.AfterTurn | main.py:126-139 | a turn keeps the old history as it was and appends the user's message, then the answer when it is truthy |
| Session.AfterTurnWellFormed | main.py:126-139 | a turn with a non-empty prompt keeps the history well formed: no system message, no empty message, and every answer right after a user message |
| Session.PayloadRoles | main.py:26-36 | in what reaches the server, the only system message is the truthy system prompt at index 0 |
| Session.ChatSession.Valid | main.py:85-89 | the session's history is well formed |
| Session.ChatSession.constructor | main.py:85-89 | the first run starts with no history and a client for `http://localhost:11434/api` |
| Session.ChatSession.ClearChat | main.py:117-118 | Clear Chat empties the history |
| Session.ChatSession.ChatTurn | main.py:126-139 | a falsy prompt changes nothing. Otherwise the request carries the system prefix and the history with the user's message. The history becomes AfterTurn of the answer and stays well formed |

## Left out

- The Streamlit page is not modelled. This covers the title, the sidebar
  widgets, reruns, `display_message` and its expander, and `st.error`. It is
  user interface with no logic beyond what is modelled.
- The model chosen in the selector is not modelled. `ChatTurn` takes the
  model as given, because the choice is the user's.
- `requests` is not modelled, and neither is JSON decoding. Each HTTP reply
  is a parameter, already decoded into the fields the code reads.
- Gateway.OllamaClient.AvailableModels does not return the URL it queries
  (`<base>/tags`); only `chat`'s URL is part of the model.
- A JSON `content` that is not a string is not modelled: the reply's text is
  a string or absent.
- A model `name` that is not a JSON string is not modelled. The list
  comprehension returns whatever value it finds; the model takes every name
  to be a string or absent.
- Regular expressions in general are not modelled. Only the shape the four
  patterns share is: literal opener, lazy DOTALL group, literal closer.
- Parsing the main text again is not idempotent, and no property is stated
  about it. `str.replace` can join the pieces around a removed match into a
  new marker: `<thi<think>x</think>nk>y</think>` leaves `<think>y</think>`.
- When nothing matches, the main text is returned as is, not stripped. The
  model follows the code here.
- `chat` treats only statuses 400 to 599 as failures, as
  `raise_for_status()` does. `get_available_models` accepts only 200. The
  model keeps that difference.
- Later reruns of `initialize_session_state`, which leave existing state
  alone, are not modelled; only the first run is.
