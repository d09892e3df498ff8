/**
 * Word selection (get_random_word_with_options): up to ten attempts, each
 * drawing a user word on a coin flip or else a base word, never the previous
 * word; the first pair found is returned with up to three other translations.
 *
 * Randomness is an oracle: `coin(i)` is the outcome of `random.random() > 0.5`
 * in attempt i, and each `ORDER BY RANDOM() LIMIT n` draw is a nondeterministic
 * choice among the rows the query admits, so every property below holds for
 * every outcome of the draws.
 */
module Selection {
  import opened Wrappers
  import opened Vocabulary

  const MAX_ATTEMPTS: nat := 10
  const DISTRACTOR_LIMIT: nat := 3

  /** Where the pair came from: the 'type' field of the result. */
  datatype WordType = UserWord | BaseWord

  /** The dictionary the function returns: word, translation, other_words and type. */
  datatype Card = Card(word: string, translation: string, otherWords: seq<string>, wordType: WordType)

  /** `if previous_word:` is false for None and for the empty string, which then exclude nothing. */
  predicate Excluded(previousWord: Option<string>, word: string)
  {
    previousWord.Some? && previousWord.value != "" && word == previousWord.value
  }

  /** The rows the user-word query admits: the user's pairs except the previous word. */
  function UserCandidates(m: UserWords, userId: int, previousWord: Option<string>): (r: set<Pair>)
    ensures forall p :: p in r <==>
      WordKey(userId, p.word) in m && m[WordKey(userId, p.word)] == p.translation && !Excluded(previousWord, p.word)
  {
    set k | k in m && k.userId == userId && !Excluded(previousWord, k.word) :: Pair(k.word, m[k])
  }

  /** The rows the base-word query admits: base pairs except the previous word. */
  function BaseCandidates(base: seq<Pair>, previousWord: Option<string>): (r: set<Pair>)
    ensures forall p :: p in r <==> p in base && !Excluded(previousWord, p.word)
  {
    set p | p in base && !Excluded(previousWord, p.word)
  }

  /** The translation column of the base table, one entry per row. */
  function Translations(base: seq<Pair>): (ts: seq<string>)
    ensures |ts| == |base|
    ensures forall i :: 0 <= i < |base| ==> ts[i] == base[i].translation
  {
    if base == [] then [] else [base[0].translation] + Translations(base[1..])
  }

  /**
   * The column the distractor query reads: the translation of every base row
   * whose translation differs from the correct one, duplicates kept.
   */
  function DistractorPool(base: seq<Pair>, translation: string): (pool: seq<string>)
    ensures |pool| <= |base|
    ensures forall x :: x in pool ==> x != translation && exists p :: p in base && p.translation == x
    ensures forall p :: p in base && p.translation != translation ==> p.translation in pool
    ensures forall x :: multiset(pool)[x] == if x == translation then 0 else multiset(Translations(base))[x]
  {
    if base == [] then
      []
    else
      var rest := DistractorPool(base[1..], translation);
      assert multiset(Translations(base)) == multiset{base[0].translation} + multiset(Translations(base[1..]));
      if base[0].translation != translation then
        assert multiset([base[0].translation] + rest) == multiset{base[0].translation} + multiset(rest);
        [base[0].translation] + rest
      else
        rest
  }

  function Min(a: nat, b: nat): nat { if a <= b then a else b }

  /** `LIMIT 3` over the pool in random order: min(3, n) of its rows, each used at most once, in any order. */
  predicate IsDraw(others: seq<string>, pool: seq<string>)
  {
    |others| == Min(DISTRACTOR_LIMIT, |pool|) && multiset(others) <= multiset(pool)
  }

  /** Attempt i finds a pair: its coin sends it to a non-empty user query, or the base query is non-empty. */
  predicate AttemptFinds(i: nat, coin: nat -> bool, userCandidates: set<Pair>, baseCandidates: set<Pair>)
  {
    (coin(i) && userCandidates != {}) || baseCandidates != {}
  }

  /** The first rows of the pool form a draw, so a draw always exists. */
  lemma DrawExists(pool: seq<string>)
    ensures IsDraw(pool[..Min(DISTRACTOR_LIMIT, |pool|)], pool)
  {
    var n := Min(DISTRACTOR_LIMIT, |pool|);
    assert pool == pool[..n] + pool[n..];
    assert multiset(pool) == multiset(pool[..n]) + multiset(pool[n..]);
  }

  /**
   * The other words number at most three, each is a base translation different
   * from the correct one, and none appears more often than base rows carry it.
   */
  lemma DistractorShape(others: seq<string>, base: seq<Pair>, translation: string)
    requires IsDraw(others, DistractorPool(base, translation))
    ensures |others| <= DISTRACTOR_LIMIT
    ensures forall x :: x in others ==> x != translation && exists p :: p in base && p.translation == x
    ensures forall x :: multiset(others)[x] <= multiset(Translations(base))[x]
  {
    var pool := DistractorPool(base, translation);
    forall x | x in others ensures x in pool {
      assert x in multiset(others);
    }
  }

  /** get_random_word_with_options. `fault` stands for the store raising, which yields None. */
  method SelectRound(db: Database, userId: int, previousWord: Option<string>, coin: nat -> bool, fault: bool)
    returns (card: Option<Card>, attempts: nat)
    ensures fault ==> card == None
    ensures attempts <= MAX_ATTEMPTS
    ensures card.Some? && previousWord.Some? && previousWord.value != "" ==> card.value.word != previousWord.value
    ensures card.Some? ==> |card.value.otherWords| <= DISTRACTOR_LIMIT && card.value.translation !in card.value.otherWords
    ensures var uc, bc := UserCandidates(db.userWords, userId, previousWord), BaseCandidates(db.baseWords, previousWord);
      && (card.Some? ==>
            && 1 <= attempts
            && AttemptFinds(attempts - 1, coin, uc, bc)
            && (forall i :: 0 <= i < attempts - 1 ==> !AttemptFinds(i, coin, uc, bc))
            && (card.value.wordType == UserWord <==> coin(attempts - 1) && uc != {})
            && (card.value.wordType == UserWord ==> Pair(card.value.word, card.value.translation) in uc)
            && (card.value.wordType == BaseWord ==> Pair(card.value.word, card.value.translation) in bc)
            && IsDraw(card.value.otherWords, DistractorPool(db.baseWords, card.value.translation)))
      && (!fault && card.None? ==>
            attempts == MAX_ATTEMPTS && forall i :: 0 <= i < MAX_ATTEMPTS ==> !AttemptFinds(i, coin, uc, bc))
      && (!fault && bc != {} ==> card.Some? && attempts == 1)
  {
    attempts := 0;
    if fault {
      return None, attempts;
    }
    var uc := UserCandidates(db.userWords, userId, previousWord);
    var bc := BaseCandidates(db.baseWords, previousWord);
    var wordData: Option<Pair> := None;
    var wordType := BaseWord;
    while attempts < MAX_ATTEMPTS
      invariant attempts <= MAX_ATTEMPTS
      invariant wordData == None
      invariant forall i :: 0 <= i < attempts ==> !AttemptFinds(i, coin, uc, bc)
    {
      attempts := attempts + 1;
      if coin(attempts - 1) {
        if uc != {} {
          var p :| p in uc;
          wordData := Some(p);
        }
        wordType := UserWord;
      }
      if wordData == None {
        if bc != {} {
          var p :| p in bc;
          wordData := Some(p);
        }
        wordType := BaseWord;
      }
      if wordData == None {
        continue;
      }
      var pair := wordData.value;
      var pool := DistractorPool(db.baseWords, pair.translation);
      DrawExists(pool);
      var others :| IsDraw(others, pool);
      DistractorShape(others, db.baseWords, pair.translation);
      assert bc != {} ==> AttemptFinds(0, coin, uc, bc);
      return Some(Card(pair.word, pair.translation, others, wordType)), attempts;
    }
    assert !AttemptFinds(0, coin, uc, bc);
    return None, attempts;
  }

  /**
   * With the single base pair (dog, собака), no user words and no previous
   * word, the card is that pair with no other words, whatever the coins.
   */
  method SingleBaseWordCard(coin: nat -> bool) returns (card: Option<Card>)
    ensures card == Some(Card("dog", "собака", [], BaseWord))
  {
    var db := new Database([Pair("dog", "собака")]);
    var attempts;
    card, attempts := SelectRound(db, 1, None, coin, false);
    assert Pair("dog", "собака") in BaseCandidates(db.baseWords, None);
    assert UserCandidates(db.userWords, 1, None) == {};
    assert DistractorPool(db.baseWords, "собака") == [];
    assert card == Some(Card("dog", "собака", [], BaseWord));
  }
}
