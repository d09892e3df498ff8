/**
 * The quiz session state machine: the per-chat entries of user_data, how
 * send_card, the answer check and the add-word steps change them, and the
 * callback handler that dispatches a pressed button to those steps.
 */
module Quiz {
  import opened Wrappers
  import opened Text
  import opened Tags
  import opened Vocabulary
  import opened Selection

  /** A chat's entry in user_data; each field is a dictionary key that may be absent. */
  datatype Session = Session(
    correctAnswer: Option<string>,
    question: Option<string>,
    otherWords: Option<seq<string>>,
    messageId: Option<int>,
    previousWord: Option<string>,
    addingWord: Option<string>)

  const EMPTY := Session(None, None, None, None, None, None)

  /** The entry send_card writes: a whole new record whose previous_word is the question. */
  function RoundSession(question: string, answer: string, otherWords: seq<string>, messageId: int): Session
  {
    Session(Some(answer), Some(question), Some(otherWords), Some(messageId), Some(question), None)
  }

  /** The entry a correct answer leaves: previous_word and nothing else. */
  function Collapsed(previousWord: Option<string>): Session
  {
    EMPTY.(previousWord := previousWord)
  }

  /** Python truthiness of an optional string: present and non-empty. */
  predicate Truthy(s: Option<string>)
  {
    s.Some? && s.value != ""
  }

  /**
   * The shape of every entry the bot writes: the four round keys come and go
   * together, a round's previous_word is its question, and a pending word is
   * stripped and non-empty.
   */
  predicate WellFormed(s: Session)
  {
    && (s.question.Some? <==> s.correctAnswer.Some?)
    && (s.question.Some? <==> s.otherWords.Some?)
    && (s.question.Some? <==> s.messageId.Some?)
    && (s.question.Some? ==> s.previousWord == s.question)
    && (s.addingWord.Some? ==> s.addingWord.value != "" && Strip(s.addingWord.value) == s.addingWord.value)
  }

  /** A round never offers its correct answer among the other words. */
  predicate AnswerNotAmongOthers(s: Session)
  {
    s.correctAnswer.Some? && s.otherWords.Some? ==> s.correctAnswer.value !in s.otherWords.value
  }

  function Lookup(userData: map<int, Session>, chatId: int): Option<Session>
  {
    if chatId in userData then Some(userData[chatId]) else None
  }

  /** user_data.get(chat_id, {}).get('previous_word') */
  function PreviousWord(userData: map<int, Session>, chatId: int): Option<string>
  {
    if chatId in userData then userData[chatId].previousWord else None
  }

  /** user_data.get(chat_id, {}).get('adding_word') */
  function PendingWord(userData: map<int, Session>, chatId: int): Option<string>
  {
    if chatId in userData then userData[chatId].addingWord else None
  }

  /** The outcome of the answer check. */
  datatype Verdict =
    | Stale
    | Correct(question: string, answer: string)
    | Wrong(question: string, answer: string, otherWords: seq<string>, messageId: Option<int>)

  /**
   * The answer check: a missing entry, or a missing or empty correct_answer or
   * question, is a stale session; otherwise the submitted text is compared with
   * correct_answer by exact equality, without trimming.
   */
  function Judge(data: Option<Session>, submitted: string): (v: Verdict)
    ensures v.Stale? <==> data.None? || !Truthy(data.value.correctAnswer) || !Truthy(data.value.question)
    ensures v.Correct? ==>
      && submitted == data.value.correctAnswer.value
      && v == Correct(data.value.question.value, submitted)
    ensures v.Wrong? ==>
      && submitted != data.value.correctAnswer.value
      && v.question == data.value.question.value
      && v.answer == data.value.correctAnswer.value
      && v.otherWords == data.value.otherWords.GetOr([])
      && v.messageId == data.value.messageId
  {
    match data
    case None => Stale
    case Some(s) =>
      if !Truthy(s.correctAnswer) || !Truthy(s.question) then Stale
      else if submitted == s.correctAnswer.value then Correct(s.question.value, s.correctAnswer.value)
      else Wrong(s.question.value, s.correctAnswer.value, s.otherWords.GetOr([]), s.messageId)
  }

  /** The exact-match boundary: the stored answer is correct, and the same text with a trailing space is not. */
  lemma ExactMatchOnly(s: Session)
    requires Truthy(s.correctAnswer) && Truthy(s.question)
    ensures Judge(Some(s), s.correctAnswer.value).Correct?
    ensures Judge(Some(s), s.correctAnswer.value + " ").Wrong?
  {
    assert |s.correctAnswer.value + " "| != |s.correctAnswer.value|;
  }

  /** The message id send_card stores: the edited message when one was given and the edit went through, else the newly sent one. */
  function ShownMessageId(editMessageId: Option<int>, editOk: bool, sentId: int): (id: int)
    ensures id == sentId || Some(id) == editMessageId
    ensures editOk && editMessageId.Some? && editMessageId.value != 0 ==> id == editMessageId.value
    ensures !editOk || editMessageId.None? || editMessageId == Some(0) ==> id == sentId
  {
    if editMessageId.Some? && editMessageId.value != 0 && editOk then editMessageId.value else sentId
  }

  /** user_data after the answer branch of the callback handler. */
  function Answered(userData: map<int, Session>, chatId: int, answer: string, editOk: bool, sentId: int): (after: map<int, Session>)
    ensures after.Keys == userData.Keys
    ensures forall c :: c in userData && c != chatId ==> after[c] == userData[c]
  {
    match Judge(Lookup(userData, chatId), answer)
    case Stale => userData
    case Correct(_, _) => userData[chatId := Collapsed(userData[chatId].previousWord)]
    case Wrong(q, a, others, mid) => userData[chatId := RoundSession(q, a, others, ShownMessageId(mid, editOk, sentId))]
  }

  /** A stale session leaves user_data as it was. */
  lemma StaleUnchanged(userData: map<int, Session>, chatId: int, answer: string, editOk: bool, sentId: int)
    requires Judge(Lookup(userData, chatId), answer).Stale?
    ensures Answered(userData, chatId, answer, editOk, sentId) == userData
  {
  }

  /** A correct answer collapses the chat's entry to the question just answered, as previous_word; no other chat changes. */
  lemma CorrectCollapses(userData: map<int, Session>, chatId: int, answer: string, editOk: bool, sentId: int)
    requires chatId in userData && WellFormed(userData[chatId])
    requires Judge(Lookup(userData, chatId), answer).Correct?
    ensures var after := Answered(userData, chatId, answer, editOk, sentId);
      && after[chatId] == Collapsed(userData[chatId].question)
      && forall c :: c in userData && c != chatId ==> c in after && after[c] == userData[c]
  {
  }

  /**
   * A wrong answer re-issues the same round: question, correct answer, other
   * words and previous word stay, a pending word is dropped, and the message id
   * stays whenever the old message could be edited.
   */
  lemma WrongReissues(userData: map<int, Session>, chatId: int, answer: string, editOk: bool, sentId: int)
    requires chatId in userData && WellFormed(userData[chatId])
    requires Judge(Lookup(userData, chatId), answer).Wrong?
    ensures var s := userData[chatId];
      var after := Answered(userData, chatId, answer, editOk, sentId);
      && after[chatId] == s.(addingWord := None, messageId := Some(ShownMessageId(s.messageId, editOk, sentId)))
      && (editOk && s.messageId != Some(0) ==> after[chatId] == s.(addingWord := None))
  {
  }

  /** user_data after process_russian_word. */
  function WordNoted(userData: map<int, Session>, chatId: int, text: string): (after: map<int, Session>)
    ensures forall c :: c in after <==> c in userData || (c == chatId && Strip(text) != "")
    ensures forall c :: c in userData && c != chatId ==> after[c] == userData[c]
  {
    var word := Strip(text);
    if word == "" then userData
    else userData[chatId := Lookup(userData, chatId).GetOr(EMPTY).(addingWord := Some(word))]
  }

  /** Blank input changes nothing; otherwise only adding_word is set, to the stripped word, and every other key stays. */
  lemma WordNotedEffect(userData: map<int, Session>, chatId: int, text: string)
    ensures AllWhitespace(text) ==> WordNoted(userData, chatId, text) == userData
    ensures !AllWhitespace(text) ==>
      var after := WordNoted(userData, chatId, text);
      && chatId in after
      && after[chatId].addingWord == Some(Strip(text)) && Strip(text) != ""
      && after[chatId].(addingWord := None) == Lookup(userData, chatId).GetOr(EMPTY).(addingWord := None)
  {
    StripEmpty(text);
  }

  /** The delete menu's captions: the words of the listing, in order. */
  function MenuWords(rows: seq<Pair>): (words: seq<string>)
    ensures |words| == |rows|
    ensures forall i :: 0 <= i < |rows| ==> words[i] == rows[i].word
  {
    if rows == [] then [] else [rows[0].word] + MenuWords(rows[1..])
  }

  /**
   * The delete flow end to end: the word on a menu button comes back out of the
   * ask_del_ tag and then out of the confirm_del_ tag unchanged, and since
   * stored words are already stripped, confirming removes that very row and
   * nothing else of the user's listing.
   */
  lemma DeleteFromMenu(m: UserWords, userId: int, i: nat)
    requires Normalized(m)
    requires i < |Listing(m, userId)|
    ensures var w := Listing(m, userId)[i].word;
      && Classify(DeleteMenu(MenuWords(Listing(m, userId)))[i].tag) == AskDelete(w)
      && Classify(ConfirmDeleteTags(w)[0]) == ConfirmDelete(w)
      && Remove(m, userId, w).1
      && forall p :: p in Listing(Remove(m, userId, w).0, userId) <==> p in Listing(m, userId) && p.word != w
  {
    var w := Listing(m, userId)[i].word;
    assert WordKey(userId, w) in m;
    assert Strip(w) == w;
    RemoveThenList(m, userId, w);
  }

  /** What the chat platform and the store do that the bot does not decide. */
  datatype World = World(
    userFault: bool,     // get_or_create_user raised
    storeFault: bool,    // the other store call of the step raised
    coin: nat -> bool,   // random.random() > 0.5, per selection attempt
    editOk: bool,        // edit_message_text went through
    sentId: int)         // the id of a newly sent message

  datatype AddOutcome =
    | EmptyTranslation
    | NoPendingWord
    | UnknownUser
    | Added(word: string, translation: string, count: nat)
    | AddFailed(word: string)

  datatype CallbackOutcome =
    | NoUser
    | CardShown(card: Option<Card>)
    | Judged(verdict: Verdict)
    | NoWords
    | DeleteMenuShown(buttons: seq<Button>)
    | WordsListed(rows: seq<Pair>)
    | ConfirmAsked(word: string, tags: seq<string>)
    | DeleteResult(word: string, deleted: bool)
    | MessageOnly(action: Action)

  /** The bot: the user_data map it mutates, and the database it queries. */
  class Bot {
    var userData: map<int, Session>
    const db: Database

    ghost predicate Valid()
      reads this, db
    {
      db.Valid() && forall c :: c in userData ==> WellFormed(userData[c])
    }

    ghost predicate Honest()
      reads this
    {
      forall c :: c in userData ==> AnswerNotAmongOthers(userData[c])
    }

    constructor (db: Database)
      requires db.Valid()
      ensures Valid() && Honest()
      ensures this.db == db && userData == map[]
    {
      this.db := db;
      userData := map[];
    }

    /** send_card: the chat's entry is replaced wholesale by the new round, then its message id is recorded. */
    method SendCard(chatId: int, question: string, translation: string, otherWords: seq<string>,
                    editMessageId: Option<int>, world: World)
      requires Valid()
      modifies this
      ensures Valid()
      ensures userData == old(userData)[chatId :=
        RoundSession(question, translation, otherWords, ShownMessageId(editMessageId, world.editOk, world.sentId))]
      ensures old(Honest()) && translation !in otherWords ==> Honest()
    {
      userData := userData[chatId := Session(Some(translation), Some(question), Some(otherWords), None, Some(question), None)];
      var id := ShownMessageId(editMessageId, world.editOk, world.sentId);
      userData := userData[chatId := userData[chatId].(messageId := Some(id))];
    }

    /** send_welcome: the user is registered; the welcome is shown exactly when that succeeded. */
    method SendWelcome(user: TelegramUser, world: World) returns (welcomed: bool)
      requires Valid()
      modifies db
      ensures Valid()
      ensures welcomed == !world.userFault
      ensures db.users == if world.userFault then old(db.users) else Register(old(db.users), user).0
      ensures db.userWords == old(db.userWords) && db.baseWords == old(db.baseWords)
    {
      var userId := db.GetOrCreateUser(user, world.userFault);
      welcomed := userId.Some?;
    }

    /** The start_quiz branch: select a card avoiding the previous word and, when one is found, send it. */
    method BeginRound(chatId: int, userId: int, world: World) returns (card: Option<Card>)
      requires Valid()
      modifies this
      ensures Valid()
      ensures old(Honest()) ==> Honest()
      ensures card.None? ==> userData == old(userData)
      ensures card.Some? ==>
        && userData == old(userData)[chatId :=
             RoundSession(card.value.word, card.value.translation, card.value.otherWords, world.sentId)]
        && !Excluded(PreviousWord(old(userData), chatId), card.value.word)
        && card.value.translation !in card.value.otherWords
        && |card.value.otherWords| <= DISTRACTOR_LIMIT
      ensures !world.storeFault && BaseCandidates(db.baseWords, PreviousWord(old(userData), chatId)) != {} ==> card.Some?
    {
      var previousWord := PreviousWord(userData, chatId);
      var attempts;
      card, attempts := SelectRound(db, userId, previousWord, world.coin, world.storeFault);
      if card.Some? {
        SendCard(chatId, card.value.word, card.value.translation, card.value.otherWords, None, world);
      }
    }

    /** The answer_ branch: judge the submitted text and collapse, re-issue or leave the entry. */
    method SubmitAnswer(chatId: int, answer: string, world: World) returns (verdict: Verdict)
      requires Valid()
      modifies this
      ensures Valid()
      ensures old(Honest()) ==> Honest()
      ensures verdict == Judge(Lookup(old(userData), chatId), answer)
      ensures userData == Answered(old(userData), chatId, answer, world.editOk, world.sentId)
      ensures verdict.Correct? ==> userData == old(userData)[chatId := Collapsed(Some(verdict.question))]
    {
      verdict := Judge(Lookup(userData, chatId), answer);
      match verdict {
        case Stale =>
        case Correct(_, _) =>
          var previousWord := userData[chatId].previousWord;
          userData := userData[chatId := Collapsed(previousWord)];
        case Wrong(question, correctAnswer, otherWords, messageId) =>
          SendCard(chatId, question, correctAnswer, otherWords, messageId, world);
      }
    }

    /** process_russian_word: remember the stripped word as adding_word unless it is empty. */
    method ProcessRussianWord(chatId: int, text: string) returns (accepted: bool)
      requires Valid()
      modifies this
      ensures Valid()
      ensures old(Honest()) ==> Honest()
      ensures accepted <==> Strip(text) != ""
      ensures userData == WordNoted(old(userData), chatId, text)
      ensures db.users == old(db.users) && db.userWords == old(db.userWords)
    {
      var word := Strip(text);
      if word == "" {
        return false;
      }
      StripIdempotent(text);
      if chatId !in userData {
        userData := userData[chatId := EMPTY];
      }
      userData := userData[chatId := userData[chatId].(addingWord := Some(word))];
      accepted := true;
    }

    /**
     * process_translation: with a non-empty translation, a pending word and a
     * known user, store the pair; the three early returns leave adding_word alone.
     */
    method ProcessTranslation(chatId: int, text: string, user: TelegramUser, world: World) returns (outcome: AddOutcome)
      requires Valid()
      modifies this, db
      ensures Valid()
      ensures old(Honest()) ==> Honest()
      ensures db.baseWords == old(db.baseWords)
      ensures Strip(text) == "" ==> outcome == EmptyTranslation
      ensures Strip(text) != "" && !Truthy(PendingWord(old(userData), chatId)) ==> outcome == NoPendingWord
      ensures Strip(text) != "" && Truthy(PendingWord(old(userData), chatId)) && world.userFault ==> outcome == UnknownUser
      ensures outcome.EmptyTranslation? || outcome.NoPendingWord? || outcome.UnknownUser? ==>
        userData == old(userData) && db.userWords == old(db.userWords) && db.users == old(db.users)
      ensures Strip(text) != "" && Truthy(PendingWord(old(userData), chatId)) && !world.userFault ==>
        var word := PendingWord(old(userData), chatId).value;
        var id := Register(old(db.users), user).1;
        && db.users == Register(old(db.users), user).0
        && userData == old(userData)[chatId := old(userData)[chatId].(addingWord := None)]
        && db.userWords == (if world.storeFault then old(db.userWords) else Upsert(old(db.userWords), id, word, Strip(text)))
        && (!world.storeFault ==> db.userWords[WordKey(id, word)] == Strip(text))
        && outcome == (if world.storeFault then AddFailed(word) else Added(word, Strip(text), WordCount(db.userWords, id)))
    {
      var translation := Strip(text);
      if translation == "" {
        return EmptyTranslation;
      }
      var pending := PendingWord(userData, chatId);
      if !Truthy(pending) {
        return NoPendingWord;
      }
      StripIdempotent(text);
      outcome := AddPending(chatId, pending.value, translation, user, world);
    }

    /** The rest of process_translation, once the translation and the pending word are known good. */
    method AddPending(chatId: int, word: string, translation: string, user: TelegramUser, world: World)
      returns (outcome: AddOutcome)
      requires Valid()
      requires PendingWord(userData, chatId) == Some(word)
      requires Strip(translation) == translation
      modifies this, db
      ensures Valid()
      ensures old(Honest()) ==> Honest()
      ensures db.baseWords == old(db.baseWords)
      ensures world.userFault ==>
        outcome == UnknownUser && userData == old(userData) && db.userWords == old(db.userWords) && db.users == old(db.users)
      ensures !world.userFault ==>
        var id := Register(old(db.users), user).1;
        && db.users == Register(old(db.users), user).0
        && userData == old(userData)[chatId := old(userData)[chatId].(addingWord := None)]
        && db.userWords == (if world.storeFault then old(db.userWords) else Upsert(old(db.userWords), id, word, translation))
        && (!world.storeFault ==> db.userWords[WordKey(id, word)] == translation)
        && outcome == (if world.storeFault then AddFailed(word) else Added(word, translation, WordCount(db.userWords, id)))
    {
      assert Strip(word) == word;
      outcome := StoreWord(word, translation, user, world);
      if !outcome.UnknownUser? {
        ClearPending(chatId);
      }
    }

    /** The store calls of process_translation: find the user, then upsert the pair and count the user's words. */
    method StoreWord(word: string, translation: string, user: TelegramUser, world: World) returns (outcome: AddOutcome)
      requires db.Valid()
      modifies db
      ensures db.Valid()
      ensures db.baseWords == old(db.baseWords)
      ensures world.userFault ==>
        outcome == UnknownUser && db.userWords == old(db.userWords) && db.users == old(db.users)
      ensures !world.userFault ==>
        var id := Register(old(db.users), user).1;
        && db.users == Register(old(db.users), user).0
        && db.userWords == (if world.storeFault then old(db.userWords) else Upsert(old(db.userWords), id, word, translation))
        && (!world.storeFault ==> db.userWords[WordKey(id, Strip(word))] == Strip(translation))
        && outcome == (if world.storeFault then AddFailed(word) else Added(word, translation, WordCount(db.userWords, id)))
    {
      var userId := db.GetOrCreateUser(user, world.userFault);
      if userId.None? {
        return UnknownUser;
      }
      var ok := db.AddUserWord(userId.value, word, translation, world.storeFault);
      if ok {
        outcome := Added(word, translation, WordCount(db.userWords, userId.value));
      } else {
        outcome := AddFailed(word);
      }
    }

    /** del user_data[chat_id]['adding_word']: the entry keeps every other key. */
    method ClearPending(chatId: int)
      requires Valid()
      requires chatId in userData
      modifies this
      ensures Valid()
      ensures old(Honest()) ==> Honest()
      ensures userData == old(userData)[chatId := old(userData)[chatId].(addingWord := None)]
    {
      userData := userData[chatId := userData[chatId].(addingWord := None)];
    }

    /** handle_callback_query: identify the user, then take the branch the tag selects. */
    method HandleCallback(chatId: int, user: TelegramUser, data: string, world: World) returns (outcome: CallbackOutcome)
      requires Valid()
      modifies this, db
      ensures Valid()
      ensures old(Honest()) ==> Honest()
      ensures db.baseWords == old(db.baseWords)
      ensures world.userFault ==> outcome == NoUser && userData == old(userData) && db.users == old(db.users) && db.userWords == old(db.userWords)
      ensures !world.userFault ==> db.users == Register(old(db.users), user).0
      ensures !world.userFault ==>
        var id := Register(old(db.users), user).1;
        match Classify(data)
        case StartQuiz =>
          && outcome.CardShown?
          && (outcome.card.None? ==> userData == old(userData))
          && (outcome.card.Some? ==>
               var c := outcome.card.value;
               userData == old(userData)[chatId := RoundSession(c.word, c.translation, c.otherWords, world.sentId)]
               && !Excluded(PreviousWord(old(userData), chatId), c.word))
          && db.userWords == old(db.userWords)
        case Answer(answer) =>
          && outcome == Judged(Judge(Lookup(old(userData), chatId), answer))
          && userData == Answered(old(userData), chatId, answer, world.editOk, world.sentId)
          && db.userWords == old(db.userWords)
        case ConfirmDelete(word) =>
          && outcome == DeleteResult(word, !world.storeFault && WordKey(id, Strip(word)) in old(db.userWords))
          && db.userWords == (if world.storeFault then old(db.userWords) else Remove(old(db.userWords), id, word).0)
          && userData == old(userData)
        case DeleteWord =>
          && outcome == (if Listing(db.userWords, id) == [] then NoWords
                         else DeleteMenuShown(DeleteMenu(MenuWords(Listing(db.userWords, id)))))
          && userData == old(userData) && db.userWords == old(db.userWords)
        case MyWords =>
          && outcome == (if Listing(db.userWords, id) == [] then NoWords else WordsListed(Listing(db.userWords, id)))
          && userData == old(userData) && db.userWords == old(db.userWords)
        case AskDelete(word) =>
          && outcome == ConfirmAsked(word, ConfirmDeleteTags(word))
          && userData == old(userData) && db.userWords == old(db.userWords)
        case _ =>
          && outcome == MessageOnly(Classify(data))
          && userData == old(userData) && db.userWords == old(db.userWords)
    {
      var userId := db.GetOrCreateUser(user, world.userFault);
      if userId.None? {
        return NoUser;
      }
      var id := userId.value;
      var action := Classify(data);
      match action {
        case StartQuiz =>
          var card := BeginRound(chatId, id, world);
          outcome := CardShown(card);
        case Answer(answer) =>
          var verdict := SubmitAnswer(chatId, answer, world);
          outcome := Judged(verdict);
        case ConfirmDelete(word) =>
          var deleted := db.DeleteUserWord(id, word, world.storeFault);
          outcome := DeleteResult(word, deleted);
        case DeleteWord =>
          var rows := Listing(db.userWords, id);
          outcome := if rows == [] then NoWords else DeleteMenuShown(DeleteMenu(MenuWords(rows)));
        case MyWords =>
          var rows := Listing(db.userWords, id);
          outcome := if rows == [] then NoWords else WordsListed(rows);
        case AskDelete(word) =>
          outcome := ConfirmAsked(word, ConfirmDeleteTags(word));
        case _ =>
          outcome := MessageOnly(action);
      }
    }
  }

  /**
   * The add-word dialogue end to end: a word, then its translation, with the
   * store reachable, leaves the stripped pair in the user's listing and no
   * pending word behind.
   */
  method AddWordDialogue(bot: Bot, chatId: int, wordText: string, translationText: string, user: TelegramUser, world: World)
    returns (outcome: AddOutcome)
    requires bot.Valid()
    requires !world.userFault && !world.storeFault
    requires Strip(wordText) != "" && Strip(translationText) != ""
    modifies bot, bot.db
    ensures bot.Valid()
    ensures outcome.Added?
    ensures Pair(Strip(wordText), Strip(translationText)) in Listing(bot.db.userWords, Register(old(bot.db.users), user).1)
    ensures PendingWord(bot.userData, chatId) == None
  {
    ghost var words0, users0 := bot.db.userWords, bot.db.users;
    var accepted := bot.ProcessRussianWord(chatId, wordText);
    WordNotedEffect(old(bot.userData), chatId, wordText);
    StripEmpty(wordText);
    assert PendingWord(bot.userData, chatId) == Some(Strip(wordText));
    assert bot.db.userWords == words0 && bot.db.users == users0;
    outcome := bot.ProcessTranslation(chatId, translationText, user, world);
    ghost var id := Register(users0, user).1;
    assert bot.db.userWords == Upsert(words0, id, Strip(wordText), Strip(translationText));
    UpsertThenList(words0, id, Strip(wordText), Strip(translationText));
    StripIdempotent(wordText);
    StripIdempotent(translationText);
  }
}
