# Football Intelligence dashboard: query classifier, chat and history views

The dashboard is a chat front-end for football operations staff. Each question
the user types is sent to a language-model agent. The page also labels every
question locally with one of five domains: Transfers, Strategy, Analytics,
Scouting or General. The label is shown as a coloured badge above the user's
messages, beside each entry of the query history, and beside the six suggested
questions in the sidebar.

The label comes from `getQueryType`. It lower-cases the query and tests four
fixed keyword lists for substring matches, in a fixed order:

1. Transfers
2. Strategy
3. Analytics
4. Scouting

The first list with a match decides the domain. A query that matches no list is
General.

This project models that classifier and the page logic built on it.

- `text.dfy` (module `Text`):
  - `toLowerCase` over ASCII.
  - `includes` as substring containment. A character-by-character search is
    proved to decide it.
  - `trim` with ECMAScript's white space and line terminators.
- `classifier.dfy` (module `Classifier`):
  - the keyword lists and the priority chain;
  - the badge each domain carries: label, Tailwind colour classes and icon name.
- `suggested.dfy` (module `Suggestions`): the six suggested queries and the
  domain each one gets.
- `chat_view.dfy` (module `ChatView`):
  - the chat tab, which puts a badge over user messages only;
  - the history tab, which lists the user messages in order, each with its badge;
  - the guard that enables the send button.

Everything here is a pure function of its inputs. The message log and the
loading flag come from the chat library and are parameters.

## Model

| member | source | states |
|---|---|---|
| Text.LowerChar | app/page.tsx:54 | The result is never an ASCII capital. If a character changes, it was a capital and moves up by 32, to its lower-case letter. |
| Text.LowerIdempotent | app/page.tsx:54 | A lower-cased query has no capitals left, and lower-casing it again changes nothing. |
| Text.LowerConcat | app/page.tsx:54 | Lower-casing works character by character, so it distributes over concatenation. |
| Text.ContainsAny | app/page.tsx:56-63 | An `a \|\| b \|\| ...` chain of `includes` tests holds exactly when some keyword of the list occurs in the text. |
| Text.ContainsExtend | app/page.tsx:57-62 | A substring of a text is a substring of any text around it. |
| Text.FoundFromIff | app/page.tsx:57 | A position-by-position search from `i` succeeds exactly when the keyword occurs at some position at or after `i`. |
| Text.FoundIffContains | app/page.tsx:57 | The search from the start decides `includes`. |
| Text.FoundAnyIff | app/page.tsx:56-63 | Searching each keyword in turn decides the whole `includes` chain. |
| Text.ContainsAroundSpace | app/page.tsx:57-62 | A keyword without spaces occurs in `a + " " + b` exactly when it occurs in `a` or in `b`. |
| Text.ContainsAnyInWords | app/page.tsx:57-99 | A keyword list hits words joined by spaces exactly when it hits one of the words. |
| Text.TrimStart | app/page.tsx:261 | The result is a suffix of the input, the dropped prefix is all white space, and the result is empty or starts with a character that is not white space. |
| Text.TrimEnd | app/page.tsx:261 | Mirror image of TrimStart at the end of the string. |
| Text.Trim | app/page.tsx:261 | `trim()` returns a contiguous slice of the input with only white space outside it. That slice is empty, or starts and ends with characters that are not white space. |
| Text.TrimEmptyIff | app/page.tsx:261 | `input.trim()` is the empty string exactly when every character of the input is white space. |
| Text.TrimIdempotent | app/page.tsx:261 | Trimming twice is the same as trimming once. |
| Classifier.Classify | app/page.tsx:53-105 | A domain other than General is returned only when its own list hits. No list tried earlier than the returned domain hits. |
| Classifier.ClassifyIff | app/page.tsx:56-104 | `d` is the classification exactly when `d` is General or hits, and no domain ranked before `d` hits. This covers each of Strategy, Analytics and Scouting, as well as Transfers. |
| Classifier.GeneralIffNoHit | app/page.tsx:104 | The result is General exactly when no list hits. The empty query is General. |
| Classifier.TransferKeywordWins | app/page.tsx:56-65 | Any Transfers keyword in the lower-cased query makes it Transfers, whatever else the query contains. |
| Classifier.AttackTransferIsTransfers | app/page.tsx:56-76 | "attack transfer" is Transfers, although "attack" is a Strategy keyword. |
| Classifier.ClassifyIgnoresCase | app/page.tsx:54 | Queries with the same lower-case form get the same domain, and `Classify(Lower(q)) == Classify(q)`. |
| Classifier.ClassifyExtend | app/page.tsx:57-99 | Matching is on substrings, so adding text around a query can only move it to an earlier domain, never to a later one. |
| Classifier.FirstHit | app/page.tsx:56-104 | Trying an ordered list of domains returns General or a member of the list. |
| Classifier.ClassifyIsFirstHit | app/page.tsx:56-104 | The if-chain equals trying the ordered list Transfers, Strategy, Analytics, Scouting and taking the first hit. |
| Classifier.BadgesDistinct | app/page.tsx:64-104 | Every label is non-empty. Labels are pairwise distinct, and so are the five colour strings. |
| Classifier.QueryType | app/page.tsx:53-105 | The badge's label is never empty. Its label and its colour each name the query's domain and no other, and its icon is that domain's icon. |
| Classifier.KeywordsHaveNoSpaces | app/page.tsx:57-99 | No keyword contains a space. |
| Classifier.HitsInWords | app/page.tsx:54-99 | A query of space-separated words hits a list exactly when one of its lower-cased words does. |
| Suggestions.Suggestion0 | app/page.tsx:29 | "Analyze potential striker targets under 25 years old" is Transfers ("targets" contains "target"). |
| Suggestions.Suggestion1 | app/page.tsx:30 | "Suggest tactical approach against low-block teams" is Strategy. It hits no Transfers keyword, and "tactical" contains "tactic". |
| Suggestions.Suggestion2 | app/page.tsx:31 | "Compare our defensive metrics to top 4 teams" is Analytics. "defensive" does not contain "defend", and "metrics" contains "metric". |
| Suggestions.Suggestion3 | app/page.tsx:32 | "Identify promising right-backs in Ligue 1 and Bundesliga" is Scouting. It misses the three earlier lists. |
| Suggestions.Suggestion4 | app/page.tsx:33 | "Evaluate our pressing effectiveness this season" is Strategy ("pressing" contains "press"). |
| Suggestions.Suggestion5 | app/page.tsx:34 | "Analyze the cost-benefit of midfield reinforcements" misses all four lists and is General. |
| Suggestions.SuggestedClassified | app/page.tsx:28-35 | Every suggested query gets the domain listed for it. |
| Suggestions.SuggestionSubmittable | app/page.tsx:48-50 | A suggestion copied into the input box can be sent whenever no answer is loading, because no suggestion is blank. |
| ChatView.ViewMessage | app/page.tsx:214-240 | A message shows a badge, and is right-aligned, exactly when it is the user's. A shown badge is the whole `getQueryType` result for the message's text: label, colour and icon of its domain. Other messages get the empty badge triple. |
| ChatView.Chat | app/page.tsx:202-245 | The welcome panel appears exactly when the log is empty. Otherwise there is one view per message, in log order. |
| ChatView.ChatBadgesMatchHistory | app/page.tsx:214-291 | The badges shown in the chat tab are, in order, the badges of the history rows. |
| ChatView.UserMessages | app/page.tsx:289 | The filter keeps only user messages and never adds any. |
| ChatView.UserMessagesEmptyIff | app/page.tsx:289 | The filtered list is empty exactly when the log has no user message. |
| ChatView.UserPositions | app/page.tsx:289 | The user messages' positions are strictly increasing. Each listed position holds a user message, and every user message's position is listed. |
| ChatView.UserMessagesAtPositions | app/page.tsx:289 | The filter keeps exactly the messages at the user positions, in log order. |
| ChatView.History | app/page.tsx:288-291 | There is one history row per user message. |
| ChatView.HistoryIsUserMessages | app/page.tsx:288-291 | History row `i` holds the `i`-th user message in log order, with that message's query badge. |
| ChatView.UserMessagesConcat | app/page.tsx:289 | Filtering a concatenation gives the concatenation of the filtered parts. |
| ChatView.HistoryAppend | app/page.tsx:288-291 | A new user message adds its row at the end of the history. A new assistant message leaves the history unchanged. |
| ChatView.HistoryTab | app/page.tsx:282-291 | The placeholder appears exactly when the log is empty. Otherwise the rows are exactly the history rows (the user messages in log order, each with its badge), and the list is empty exactly when no message is the user's. |
| ChatView.ShownBadgesFromViews | app/page.tsx:216-219 | Every badge shown comes from a view that shows its badge, and every such view's badge is shown. |
| ChatView.SubmitEnabled | app/page.tsx:261 | The send button is enabled exactly when nothing is loading and the input has a character that is not white space. |

## Left out

- app/api/chat/route.ts and app/api/football-intelligence/route.ts are not part of this model. They are network and cloud-SDK calls (a streaming model call and an agent invocation with a random session id) with no local logic to prove.
- The chat session itself is out of scope: the message log, loading flag, token streaming and rejection of blank submissions. It is owned by the external `useChat` hook, and here it appears only as the inputs `ms` and `isLoading`.
- React rendering is left out: icons as JSX elements (modelled as their component names), tabs, tooltips, keys, and the auto-scroll effect (app/page.tsx:42-46).
- Text.Lower: lowers ASCII capitals only. JavaScript's `toLowerCase` also maps non-ASCII capitals (for example 'É' to 'é'), so for queries with non-ASCII capitals the model may classify differently. No keyword contains a non-ASCII letter, but a non-ASCII capital could lower to a letter that completes a keyword.
- Suggestions.SuggestedWords: each suggestion is written as its list of words and joined by single spaces, rather than as one literal string. The joined text is the string in the source.
- ChatView.Role: has two roles. The page only tests `role === "user"`, so any other role the chat library may produce behaves like Assistant.
- Matched keywords: `getQueryType` returns no set of matched keywords, only a label, colour classes and an icon, so the model computes none.
