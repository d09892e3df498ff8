# EnglishCard bot: a Dafny model of the quiz core

`main.py` is a Telegram bot for learning English words. A user presses inline
buttons to get a card: a Russian word and a shuffled set of English
translations, one of them correct. Users can also add, list and delete their
own word pairs. A shared base vocabulary feeds every user's quiz.

This project models the part of the bot that makes decisions. The Telegram
and PostgreSQL glue around it is left out.

- `text.dfy` (module `Text`): Python's `str.strip()` over the `str.isspace`
  character set, and the order `ORDER BY word` lists words in, with the
  sorted listing of a finite set of words.
- `tags.dfy` (module `Tags`): the callback tags built for buttons
  (`answer_`, `ask_del_`, `confirm_del_` and the fixed menu tags). It covers
  the if/elif chain of `handle_callback_query` that decodes a tag back into an
  action, the answer keyboard of a card with its shuffle, the deletion menu and
  the confirmation keyboard.
- `vocabulary.dfy` (module `Vocabulary`): the `users` and `user_words` tables
  as Dafny maps, the base vocabulary as a sequence, and the store operations:
  - `get_or_create_user`, `add_user_word`, `delete_user_word`;
  - `get_user_words` and `get_user_words_count`.

  The `Database` class holds the tables; its methods update them in place.
- `selection.dfy` (module `Selection`): `get_random_word_with_options`, the
  loop of at most ten attempts that picks the next card.
- `quiz.dfy` (module `Quiz`): the per-chat `user_data` entries and the `Bot`
  class that mutates them:
  - `send_card`;
  - each branch of `handle_callback_query`;
  - the two add-word steps, `process_russian_word` and `process_translation`;
  - `send_welcome`.

Everything the bot does not decide is a parameter:
- `World.coin(i)` is the outcome of `random.random() > 0.5` in attempt `i`.
- Each `ORDER BY RANDOM() LIMIT n` draw is a nondeterministic choice among the
  rows the query admits. `random.shuffle` is any reordering.
- `World.userFault` says whether `get_or_create_user` raised, and
  `World.storeFault` whether the step's other fault-prone store call raised:
  `add_user_word`, `delete_user_word`, or the queries of
  `get_random_word_with_options`. The source catches the exception and
  returns `None` or `False`; the model changes nothing and yields the same
  fallback. `get_user_words` and `get_user_words_count` carry no fault flag
  (see "## Left out").
- `World.editOk` says whether `edit_message_text` went through, and
  `World.sentId` is the id of a newly sent message.

Every property below holds for every value of these parameters.

Four behaviours of the code that are easy to miss, and that the model follows:
- The other words of a card are not made distinct. The distractor query has
  no `DISTINCT`, so `IsDraw` allows repeats. Each entry is still used at most
  as often as the base table holds it.
- Deleting a word strips it first (`main.py:185`); it is not an exact-word
  match.
- The no-repeat rule holds whenever a card is returned and the previous word
  is non-empty, not only when the vocabulary has two or more words.
- A stale session is also reported when `correct_answer` or `question` is
  present but empty, because `if not correct_answer or not question` tests
  truthiness.

## Model

| member | source | states |
|---|---|---|
| Text.FirstNonSpace | main.py:332 | The scan stops at the first character that is not whitespace, and everything it skips is whitespace. |
| Text.EndNonSpace | main.py:332 | The backward scan stops after the last character that is not whitespace, and everything after it is whitespace. |
| Text.Strip | main.py:332 | `strip()` returns at most as many characters as it is given, and what it returns neither begins nor ends with whitespace. |
| Text.StripShape | main.py:332 | `strip()` keeps one contiguous piece of the input, and everything before and after that piece is whitespace. |
| Text.StripTrimmed | main.py:355 | A string that neither begins nor ends with whitespace is returned unchanged. |
| Text.StripIdempotent | main.py:168 | Stripping an already stripped word or translation changes nothing. |
| Text.StripEmpty | main.py:334 | `strip()` returns the empty string exactly when the input is all whitespace; this is the "cannot be empty" test. |
| Text.LessEqReflexive | main.py:202 | The word order is reflexive. |
| Text.LessEqTotal | main.py:202 | Any two words are comparable. |
| Text.LessEqAntisymmetric | main.py:202 | Two words ordered both ways are equal, so the order has no ties between different words. |
| Text.LessEqTransitive | main.py:202 | The word order is transitive. |
| Text.LeastExists | main.py:202 | Every non-empty finite set of words has a first word. |
| Text.SortedWords | main.py:199-204 | The listing holds every word of the set, each exactly once, in strictly ascending order. |
| Tags.Classify | main.py:401-543 | The handler's if/elif chain run in reverse: an answer, `ask_del_` word or `confirm_del_` word rebuilt with its prefix gives back the exact tag, each fixed action comes only from its own tag, and a tag is ignored exactly when it is none of the fixed tags and has none of the three prefixes. |
| Tags.AnswerTagRoundTrip | main.py:243-244 | An answer button's tag `"answer_" + caption` is decoded by the handler as an answer, and slicing off the prefix gives back the caption exactly. |
| Tags.AskDeleteTagRoundTrip | main.py:494-501 | A delete-menu tag `"ask_del_" + word` is decoded as a request to confirm deleting exactly that word. |
| Tags.ConfirmDeleteTagRoundTrip | main.py:509-511 | A confirmation tag `"confirm_del_" + word` is decoded as deleting exactly that word. |
| Tags.FixedTagsDecode | main.py:401-543 | Each fixed menu tag reaches its own branch of the handler, despite the prefix tests that come before it. |
| Tags.CaptionsPermutation | main.py:245 | Shuffling the buttons shuffles their captions the same way. |
| Tags.CardButtons | main.py:243-244 | Before the shuffle, the captions are the correct translation followed by the other words, and every tag is `"answer_"` plus its caption. |
| Tags.CreateCardMarkup | main.py:242-246 | The keyboard is a permutation of the unshuffled buttons. Its captions are, as a multiset, the correct translation and the other words, one button each. Every button decodes to an answer equal to its own caption. |
| Tags.DeleteMenu | main.py:492-496 | One button per listed word, captioned with the word and decoding to a delete request for that word, then a final button back to the main menu. |
| Tags.ConfirmDeleteTags | main.py:250-256 | The confirmation keyboard's first tag decodes to deleting the word and its second to cancelling. |
| Vocabulary.Register | main.py:49-56 | The upsert on `telegram_id` stores the user's current username and first name. A known user keeps their id, a new one gets a fresh id, and no other user's row changes. |
| Vocabulary.RegisterPreservesValid | main.py:49-56 | Registering keeps the ids positive and distinct, so the `if not user_id` test never rejects a stored id. |
| Vocabulary.RegisterStable | main.py:49-56 | Registering the same Telegram user twice yields the same id. |
| Vocabulary.RegisterDistinct | main.py:49-56 | Two different Telegram users get two different ids. |
| Vocabulary.Upsert | main.py:163-168 | Stores the stripped translation under (user, stripped word), replacing any earlier translation; every other row is unchanged. |
| Vocabulary.UpsertNormalized | main.py:168 | If every stored word and translation is already stripped, that stays true after an upsert. |
| Vocabulary.Remove | main.py:181-188 | Reports a removal exactly when the row (user, stripped word) existed, and removes that row and no other. |
| Vocabulary.Listing | main.py:199-204 | Every listed pair is one of the user's rows, and every row of the user is listed. The words are strictly ascending and the length equals the number of the user's distinct words. |
| Vocabulary.WordCount | main.py:65-76 | The count is zero exactly when no row belongs to the user, and never exceeds the number of rows in the table. |
| Vocabulary.ListingLengthIsCount | main.py:69-73 | The length of `get_user_words` equals what `get_user_words_count` returns. |
| Vocabulary.UpsertThenList | main.py:163-168 | After an add, the stripped pair is listed for that user, and every other user's listing is unchanged. |
| Vocabulary.AddTrimsExample | main.py:168 | Adding `" cat "` with `" кот "` to an empty table lists exactly `("cat", "кот")`. |
| Vocabulary.InListing | main.py:199-204 | A pair is listed exactly when it is one of the user's rows. |
| Vocabulary.RemoveThenList | main.py:181-188 | After a delete, the listing is the old listing without the stripped word. |
| Vocabulary.Database.GetOrCreateUser | main.py:45-61 | On success, returns the id that `Register` assigns and updates the users table. On a failure, returns `None` and changes nothing. The word tables are never touched. |
| Vocabulary.Database.AddUserWord | main.py:159-174 | Returns true exactly when there is no fault. The word table becomes the upserted table, or stays as it was on a fault. |
| Vocabulary.Database.DeleteUserWord | main.py:177-192 | Returns true exactly when there is no fault and the stripped row existed. The table loses that row, or stays as it was on a fault. |
| Selection.UserCandidates | main.py:93-109 | The user-word query admits exactly the user's pairs, minus a non-empty previous word. |
| Selection.BaseCandidates | main.py:112-127 | The base-word query admits exactly the base pairs, minus a non-empty previous word. |
| Selection.DistractorPool | main.py:135-141 | The distractor column holds every base translation different from the correct one, and nothing else. Each such translation occurs exactly as many times as base rows carry it, so repeats are kept; the correct translation never occurs. |
| Selection.DrawExists | main.py:139 | `LIMIT 3` can always be met, by the first min(3, n) rows. |
| Selection.DistractorShape | main.py:135-142 | There are at most three other words. Each is a base translation and differs from the correct one, and none occurs more often than base rows carry it. |
| Selection.SelectRound | main.py:80-155 | At most ten attempts. The card comes from the first attempt that can find a pair, and no earlier attempt could. Its type is user exactly when that attempt's coin chose the user query and the user had a candidate. The pair lies in that query's candidates, and the word is never a non-empty previous word. The other words are a draw from the distractor pool. `None` means a fault, or ten failed attempts. A base candidate makes the first attempt succeed. |
| Selection.SingleBaseWordCard | main.py:80-155 | With the single base pair (dog, собака), no user words and no previous word, the card is that pair with no other words and the base type, for every outcome of the coins. |
| Quiz.ShownMessageId | main.py:277-303 | The stored message id is either the newly sent one or the one given for editing. It is the given one when that id is non-zero and the edit went through, and the newly sent one otherwise. |
| Quiz.Judge | main.py:414-435 | Stale exactly when the entry is missing or `correct_answer` or `question` is missing or empty. Otherwise the answer is correct exactly when it equals `correct_answer` character for character. A wrong answer carries the round's question, answer, other words (default `[]`) and message id. |
| Quiz.ExactMatchOnly | main.py:435 | The stored answer is judged correct, and the same text with a trailing space is judged wrong. |
| Quiz.Answered | main.py:435-477 | The answer branch touches only the answering chat's entry: the same chats keep entries, and every other chat's entry is unchanged. |
| Quiz.StaleUnchanged | main.py:416-432 | A stale session leaves `user_data` unchanged. |
| Quiz.CorrectCollapses | main.py:435-442 | A correct answer leaves the chat's entry as `{previous_word: the question just answered}` and nothing else. No other chat changes. |
| Quiz.WrongReissues | main.py:465-477 | A wrong answer keeps question, correct answer, other words and previous word, and drops a pending word. The message id stays whenever the old message could be edited; otherwise it becomes the new message's id. |
| Quiz.WordNoted | main.py:332-341 | Only the chat that sent the word can gain or change an entry: a chat has one afterwards exactly when it had one before, or it is that chat and the stripped text is non-empty. Other chats' entries are unchanged. |
| Quiz.WordNotedEffect | main.py:332-341 | Blank input changes nothing. Otherwise only `adding_word` is set, to the stripped non-empty word, and every other key of the entry stays. |
| Quiz.MenuWords | main.py:493 | The deletion menu's captions are the listing's words, one per row and in the listing's order. |
| Quiz.DeleteFromMenu | main.py:485-517 | A word picked from the deletion menu comes back unchanged through the `ask_del_` and `confirm_del_` tags. Because stored words are already stripped, confirming removes exactly that row. |
| Quiz.Bot.SendCard | main.py:260-303 | The chat's entry is replaced wholesale by the new round, keeping no earlier key. The stored message id is the edited one when it was given and the edit went through, else the new one. `Honest()` is kept when the translation is not among the other words. |
| Quiz.Bot.SendWelcome | main.py:307-316 | `/start` registers the user, and the welcome is shown exactly when that succeeded. |
| Quiz.Bot.BeginRound | main.py:401-412 | If no card is found, `user_data` is unchanged. Otherwise the chat's entry becomes the card's round, whose word is not the chat's previous word. A base candidate and a reachable store always give a card. |
| Quiz.Bot.SubmitAnswer | main.py:414-478 | The verdict is `Judge` of the chat's entry, and `user_data` becomes `Answered`: unchanged if stale, collapsed if correct, re-issued if wrong. |
| Quiz.Bot.ProcessRussianWord | main.py:330-341 | Accepts exactly non-blank input, and leaves `user_data` as `WordNoted` describes. The store is untouched. |
| Quiz.Bot.ProcessTranslation | main.py:353-386 | An empty translation, a missing or empty pending word, or a failed user lookup returns early and changes nothing. Otherwise the stripped pair is stored, unless the store fails, and `adding_word` is removed in both cases. The outcome reports the word, the translation and the user's new word count. |
| Quiz.Bot.AddPending | main.py:366-386 | Once the translation and pending word are known good: a failed user lookup changes nothing. Otherwise the pair is upserted (or not, on a fault) and the pending word is cleared. |
| Quiz.Bot.StoreWord | main.py:366-383 | The store calls of `process_translation`: register the user, upsert the pair, report the count. |
| Quiz.Bot.ClearPending | main.py:385-386 | Deleting `adding_word` keeps every other key of the entry. |
| Quiz.Bot.HandleCallback | main.py:391-551 | A failed user lookup changes nothing. Otherwise the user is registered and the tag's branch runs: start a round, judge an answer, delete a confirmed word, or show the deletion menu, the word list or the confirmation keyboard. Apart from registering the user, only the first three change state. |
| Quiz.AddWordDialogue | main.py:330-386 | A word followed by its translation, with the store reachable, ends with the stripped pair listed for the user and no pending word left. |

The `Bot` class has two invariants. `Valid()` says the entries are well
formed: the four round keys come and go together, a round's `previous_word`
is its question, and a pending word is stripped and non-empty. `Honest()` says
no round offers its correct answer among the other words. Every method of
`Bot` keeps `Valid()` and `Honest()`, with two exceptions:
- `SendCard` keeps `Honest()` only when the translation it is given is not
  among the other words. Its callers, `BeginRound` and `SubmitAnswer`, always
  pass such rounds, and they do keep `Honest()`.
- `StoreWord` may change only `db`, and its contract states only
  `db.Valid()`. It leaves `user_data` untouched. Its caller, `AddPending`,
  keeps both invariants.

## Left out

- Telegram I/O is not modelled: sending, editing and answering messages,
  `register_next_step_handler`, keyboard layout (`row_width`), `main_menu`
  and every message text. `ask_for_russian_word` only sends a prompt and
  registers the next step. The model calls `ProcessRussianWord` and
  `ProcessTranslation` directly.
- Quiz.Bot.SendCard: when the edit fails, the bot falls back to sending a new
  message. That remote call is not modelled; `World.editOk` and
  `World.sentId` are inputs. A `send_message` that itself raises, leaving
  `message_id` as `None`, is not modelled.
- Vocabulary.Listing: the failure path of `get_user_words`, which returns `[]`,
  is not modelled; the listing always succeeds.
- Vocabulary.WordCount: the failure path of `get_user_words_count`, which
  returns 0, is not modelled.
- Quiz.Bot.HandleCallback: the outer `except` at main.py:549-551, which
  catches errors raised by Telegram calls, is not modelled.
- Quiz.Bot.ProcessRussianWord: a message without text (`message.text` is
  `None`) raises in the source and is not modelled.
- Python exceptions are not modelled. Each store call either takes effect
  whole or, on a fault, changes nothing.
- psycopg2 connections, commits, SQL text, `db_connection` and the
  startup check that the tables exist (main.py:554-580) are not modelled.
- Vocabulary.Register: new ids are taken in order from a counter. The gaps a
  PostgreSQL sequence leaves on conflicting inserts are not modelled; the ids
  only need to be positive and distinct.
- `ORDER BY word` is modelled as code-point order. The database collation is
  not known.
- The distribution of `random.random()`, `ORDER BY RANDOM()` and
  `random.shuffle` is not modelled. No probabilistic property is stated.
- Telegram's 64-byte limit on callback data is not modelled. Neither are
  `.env` loading, logging via `print`, or running several processes at once.
- Handlers are modelled as running one at a time, each from start to finish.
  `telebot.TeleBot(...)` at main.py:17 is built with the library's default
  settings, which dispatch handlers on worker threads. Two updates for the
  same chat could then interleave their reads and writes of `user_data`, and
  the model does not capture that.
