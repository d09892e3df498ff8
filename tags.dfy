/**
 * Callback tags: the strings the bot attaches to inline buttons, and how the
 * callback handler decodes a pressed button's tag back into an action.
 */
module Tags {

  const START_QUIZ := "start_quiz"
  const MY_WORDS := "my_words"
  const ADD_WORD := "add_word"
  const DELETE_WORD := "delete_word"
  const CANCEL_DELETE := "cancel_delete"
  const MAIN_MENU := "main_menu"

  const ANSWER_PREFIX := "answer_"
  const ASK_DELETE_PREFIX := "ask_del_"
  const CONFIRM_DELETE_PREFIX := "confirm_del_"

  /** Python's str.startswith. */
  predicate StartsWith(s: string, prefix: string)
  {
    |prefix| <= |s| && s[..|prefix|] == prefix
  }

  /** Python's s[len(prefix):], which is empty when s is shorter than the prefix. */
  function DropPrefix(s: string, prefix: string): string
  {
    if |prefix| <= |s| then s[|prefix|..] else ""
  }

  function AnswerTag(caption: string): string { ANSWER_PREFIX + caption }

  function AskDeleteTag(word: string): string { ASK_DELETE_PREFIX + word }

  function ConfirmDeleteTag(word: string): string { CONFIRM_DELETE_PREFIX + word }

  /** What a pressed button asks for; Ignored when no branch of the handler matches. */
  datatype Action =
    | StartQuiz
    | Answer(answer: string)
    | AddWord
    | DeleteWord
    | AskDelete(word: string)
    | ConfirmDelete(word: string)
    | CancelDelete
    | MyWords
    | MainMenu
    | Ignored

  /**
   * The branch the callback handler takes for a tag, tested in the handler's
   * order. A decoded word or answer rebuilds the very tag it came from, and a
   * tag is ignored only when it matches none of the tags and prefixes.
   */
  function Classify(data: string): (a: Action)
    ensures a.Answer? ==> AnswerTag(a.answer) == data
    ensures a.AskDelete? ==> AskDeleteTag(a.word) == data
    ensures a.ConfirmDelete? ==> ConfirmDeleteTag(a.word) == data
    ensures a.StartQuiz? <==> data == START_QUIZ
    ensures a.AddWord? ==> data == ADD_WORD
    ensures a.DeleteWord? ==> data == DELETE_WORD
    ensures a.CancelDelete? ==> data == CANCEL_DELETE
    ensures a.MyWords? ==> data == MY_WORDS
    ensures a.MainMenu? ==> data == MAIN_MENU
    ensures a.Ignored? <==>
      && data !in [START_QUIZ, ADD_WORD, DELETE_WORD, CANCEL_DELETE, MY_WORDS, MAIN_MENU]
      && !StartsWith(data, ANSWER_PREFIX) && !StartsWith(data, ASK_DELETE_PREFIX) && !StartsWith(data, CONFIRM_DELETE_PREFIX)
  {
    assert StartsWith(data, ANSWER_PREFIX) ==> data == ANSWER_PREFIX + DropPrefix(data, ANSWER_PREFIX);
    assert StartsWith(data, ASK_DELETE_PREFIX) ==> data == ASK_DELETE_PREFIX + DropPrefix(data, ASK_DELETE_PREFIX);
    assert StartsWith(data, CONFIRM_DELETE_PREFIX) ==> data == CONFIRM_DELETE_PREFIX + DropPrefix(data, CONFIRM_DELETE_PREFIX);
    if data == START_QUIZ then StartQuiz
    else if StartsWith(data, ANSWER_PREFIX) then Answer(DropPrefix(data, ANSWER_PREFIX))
    else if data == ADD_WORD then AddWord
    else if data == DELETE_WORD then DeleteWord
    else if StartsWith(data, ASK_DELETE_PREFIX) then AskDelete(DropPrefix(data, ASK_DELETE_PREFIX))
    else if StartsWith(data, CONFIRM_DELETE_PREFIX) then ConfirmDelete(DropPrefix(data, CONFIRM_DELETE_PREFIX))
    else if data == CANCEL_DELETE then CancelDelete
    else if data == MY_WORDS then MyWords
    else if data == MAIN_MENU then MainMenu
    else Ignored
  }

  /** An answer button's tag is decoded as an answer, and slicing off the prefix gives back the caption exactly. */
  lemma AnswerTagRoundTrip(caption: string)
    ensures Classify(AnswerTag(caption)) == Answer(caption)
  {
    var t := AnswerTag(caption);
    assert t[1] == 'n' && START_QUIZ[1] == 't';
    assert t[..|ANSWER_PREFIX|] == ANSWER_PREFIX;
  }

  /** A delete-menu button's tag is decoded as a request to confirm deleting that very word. */
  lemma AskDeleteTagRoundTrip(word: string)
    ensures Classify(AskDeleteTag(word)) == AskDelete(word)
  {
    var t := AskDeleteTag(word);
    assert t[1] == 's' && START_QUIZ[1] == 't' && ANSWER_PREFIX[1] == 'n' && ADD_WORD[1] == 'd';
    assert t[0] == 'a' && DELETE_WORD[0] == 'd';
    assert t[..|ASK_DELETE_PREFIX|] == ASK_DELETE_PREFIX;
  }

  /** A confirmation button's tag is decoded as deleting that very word. */
  lemma ConfirmDeleteTagRoundTrip(word: string)
    ensures Classify(ConfirmDeleteTag(word)) == ConfirmDelete(word)
  {
    var t := ConfirmDeleteTag(word);
    assert t[0] == 'c';
    assert START_QUIZ[0] == 's' && ANSWER_PREFIX[0] == 'a' && ADD_WORD[0] == 'a';
    assert DELETE_WORD[0] == 'd' && ASK_DELETE_PREFIX[0] == 'a';
    assert t[..|CONFIRM_DELETE_PREFIX|] == CONFIRM_DELETE_PREFIX;
  }

  /** Each fixed menu tag is decoded as its own action. */
  lemma FixedTagsDecode()
    ensures Classify(START_QUIZ) == StartQuiz
    ensures Classify(ADD_WORD) == AddWord
    ensures Classify(DELETE_WORD) == DeleteWord
    ensures Classify(CANCEL_DELETE) == CancelDelete
    ensures Classify(MY_WORDS) == MyWords
    ensures Classify(MAIN_MENU) == MainMenu
  {
    assert ADD_WORD[..|ANSWER_PREFIX|] != ANSWER_PREFIX by { assert ADD_WORD[1] != ANSWER_PREFIX[1]; }
    assert DELETE_WORD[0] != ASK_DELETE_PREFIX[0];
    assert CANCEL_DELETE[0] != ANSWER_PREFIX[0] && CANCEL_DELETE[0] != ASK_DELETE_PREFIX[0];
    assert CANCEL_DELETE[1] != CONFIRM_DELETE_PREFIX[1];
    assert MY_WORDS[0] != ANSWER_PREFIX[0] && MY_WORDS[0] != ASK_DELETE_PREFIX[0] && MY_WORDS[0] != CONFIRM_DELETE_PREFIX[0];
    assert MAIN_MENU[0] != ANSWER_PREFIX[0] && MAIN_MENU[0] != ASK_DELETE_PREFIX[0] && MAIN_MENU[0] != CONFIRM_DELETE_PREFIX[0];
  }

  datatype Button = Button(caption: string, tag: string)

  function Captions(buttons: seq<Button>): (captions: seq<string>)
    ensures |captions| == |buttons|
    ensures forall i :: 0 <= i < |buttons| ==> captions[i] == buttons[i].caption
  {
    if buttons == [] then [] else [buttons[0].caption] + Captions(buttons[1..])
  }

  lemma CaptionsAppend(a: seq<Button>, b: seq<Button>)
    ensures Captions(a + b) == Captions(a) + Captions(b)
  {
  }

  /** Reordering buttons reorders their captions the same way. */
  lemma {:induction false} CaptionsPermutation(a: seq<Button>, b: seq<Button>)
    requires multiset(a) == multiset(b)
    ensures multiset(Captions(a)) == multiset(Captions(b))
    decreases |a|
  {
    if a != [] {
      var x := a[0];
      assert x in multiset(b);
      var j :| 0 <= j < |b| && b[j] == x;
      var b' := b[..j] + b[j + 1..];
      assert b == b[..j] + [x] + b[j + 1..];
      assert a == [x] + a[1..];
      assert multiset(b) == multiset(b[..j]) + multiset{x} + multiset(b[j + 1..]);
      assert multiset(b') == multiset(b[..j]) + multiset(b[j + 1..]);
      assert multiset(a) == multiset{x} + multiset(a[1..]);
      assert multiset(a[1..]) == multiset(a) - multiset{x};
      assert multiset(b') == multiset(b) - multiset{x};
      CaptionsPermutation(a[1..], b');
      CaptionsAppend(b[..j] + [x], b[j + 1..]);
      CaptionsAppend(b[..j], [x]);
      CaptionsAppend(b[..j], b[j + 1..]);
      CaptionsAppend([x], a[1..]);
    }
  }

  /** The buttons of a card before shuffling: the correct translation first, then the other words, each tagged as an answer. */
  function CardButtons(target: string, otherWords: seq<string>): (buttons: seq<Button>)
    ensures Captions(buttons) == [target] + otherWords
    ensures forall b :: b in buttons ==> b.tag == AnswerTag(b.caption)
  {
    var captions := [target] + otherWords;
    var buttons := seq(|captions|, i requires 0 <= i < |captions| => Button(captions[i], AnswerTag(captions[i])));
    assert Captions(buttons) == captions;
    buttons
  }

  /**
   * The answer keyboard of a card. The shuffle is any reordering; each button
   * still decodes to its own caption, and together the captions are the correct
   * translation and the other words, one button each.
   */
  method CreateCardMarkup(target: string, otherWords: seq<string>) returns (buttons: seq<Button>)
    ensures multiset(buttons) == multiset(CardButtons(target, otherWords))
    ensures multiset(Captions(buttons)) == multiset([target] + otherWords)
    ensures forall b :: b in buttons ==> b.tag == AnswerTag(b.caption) && Classify(b.tag) == Answer(b.caption)
  {
    var unshuffled := CardButtons(target, otherWords);
    buttons :| multiset(buttons) == multiset(unshuffled);
    CaptionsPermutation(buttons, unshuffled);
    forall b | b in buttons ensures b.tag == AnswerTag(b.caption) && Classify(b.tag) == Answer(b.caption) {
      assert b in multiset(unshuffled);
      AnswerTagRoundTrip(b.caption);
    }
  }

  /** The deletion menu: one button per word, labelled with the word, then a button back to the main menu. */
  function DeleteMenu(words: seq<string>): (buttons: seq<Button>)
    ensures |buttons| == |words| + 1
    ensures buttons[|words|].tag == MAIN_MENU
    ensures forall i :: 0 <= i < |words| ==> buttons[i].caption == words[i] && Classify(buttons[i].tag) == AskDelete(words[i])
  {
    if words == [] then
      [Button("🔙 Назад", MAIN_MENU)]
    else
      AskDeleteTagRoundTrip(words[0]);
      [Button(words[0], AskDeleteTag(words[0]))] + DeleteMenu(words[1..])
  }

  /** The tags of the confirmation keyboard for deleting a word: confirm first, cancel second. */
  function ConfirmDeleteTags(word: string): (tags: seq<string>)
    ensures |tags| == 2
    ensures Classify(tags[0]) == ConfirmDelete(word)
    ensures Classify(tags[1]) == CancelDelete
  {
    ConfirmDeleteTagRoundTrip(word);
    FixedTagsDecode();
    [ConfirmDeleteTag(word), CANCEL_DELETE]
  }
}
