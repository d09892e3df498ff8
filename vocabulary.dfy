/**
 * The vocabulary store: the users table, the shared base_words table and the
 * per-user user_words table, as Dafny values, with the queries and updates the
 * bot issues against them.
 */
module Vocabulary {
  import opened Wrappers
  import opened Text

  /** A word and its translation: a row of base_words, or a user word as listed. */
  datatype Pair = Pair(word: string, translation: string)

  /** The unique key of user_words: (user_id, word). */
  datatype WordKey = WordKey(userId: int, word: string)

  /** user_words: at most one translation per (user_id, word). */
  type UserWords = map<WordKey, string>

  /** The chat platform's description of a user. */
  datatype TelegramUser = TelegramUser(telegramId: int, username: Option<string>, firstName: Option<string>)

  datatype UserRow = UserRow(id: int, username: Option<string>, firstName: Option<string>)

  /** users, keyed by the unique telegram_id; nextId is the next value of the id sequence. */
  datatype UsersTable = UsersTable(rows: map<int, UserRow>, nextId: int)

  /** Row ids are positive, issued by the sequence, and distinct. */
  predicate UsersValid(t: UsersTable)
  {
    && t.nextId >= 1
    && (forall tid :: tid in t.rows ==> 1 <= t.rows[tid].id < t.nextId)
    && (forall a, b :: a in t.rows && b in t.rows && a != b ==> t.rows[a].id != t.rows[b].id)
  }

  /**
   * The upsert of get_or_create_user: insert a new row with a fresh id, or, when
   * the telegram_id is known, overwrite its names and keep its id. Returns the
   * new table and the row's id.
   */
  function Register(t: UsersTable, u: TelegramUser): (r: (UsersTable, int))
    ensures u.telegramId in r.0.rows && r.0.rows[u.telegramId] == UserRow(r.1, u.username, u.firstName)
    ensures u.telegramId in t.rows ==> r.1 == t.rows[u.telegramId].id
    ensures r.0.rows.Keys == t.rows.Keys + {u.telegramId}
    ensures forall tid :: tid in t.rows && tid != u.telegramId ==> r.0.rows[tid] == t.rows[tid]
  {
    if u.telegramId in t.rows then
      var id := t.rows[u.telegramId].id;
      (t.(rows := t.rows[u.telegramId := UserRow(id, u.username, u.firstName)]), id)
    else
      (UsersTable(t.rows[u.telegramId := UserRow(t.nextId, u.username, u.firstName)], t.nextId + 1), t.nextId)
  }

  /** Registering keeps ids positive and distinct, and the id handed out is positive (so never mistaken for "no user"). */
  lemma RegisterPreservesValid(t: UsersTable, u: TelegramUser)
    requires UsersValid(t)
    ensures UsersValid(Register(t, u).0)
    ensures Register(t, u).1 >= 1
  {
    var (t', id) := Register(t, u);
    forall a, b | a in t'.rows && b in t'.rows && a != b ensures t'.rows[a].id != t'.rows[b].id {
      if a != u.telegramId && b != u.telegramId {
        assert t'.rows[a] == t.rows[a] && t'.rows[b] == t.rows[b];
      }
    }
  }

  /** Two calls for the same telegram_id return the same id, whatever the names passed the second time. */
  lemma RegisterStable(t: UsersTable, u: TelegramUser, again: TelegramUser)
    requires again.telegramId == u.telegramId
    ensures Register(Register(t, u).0, again).1 == Register(t, u).1
  {
  }

  /** Two different users never share an id. */
  lemma RegisterDistinct(t: UsersTable, u: TelegramUser, v: TelegramUser)
    requires UsersValid(t) && u.telegramId != v.telegramId
    ensures var t1 := Register(t, u); Register(t1.0, v).1 != t1.1
  {
    RegisterPreservesValid(t, u);
    var t1 := Register(t, u);
    var t2 := Register(t1.0, v);
    RegisterPreservesValid(t1.0, v);
    assert t2.0.rows[u.telegramId] == t1.0.rows[u.telegramId];
  }

  /** The upsert of add_user_word: both parts are stripped, and a later translation replaces an earlier one. */
  function Upsert(m: UserWords, userId: int, word: string, translation: string): (r: UserWords)
    ensures r.Keys == m.Keys + {WordKey(userId, Strip(word))}
    ensures r[WordKey(userId, Strip(word))] == Strip(translation)
    ensures forall k :: k in m && k != WordKey(userId, Strip(word)) ==> r[k] == m[k]
  {
    m[WordKey(userId, Strip(word)) := Strip(translation)]
  }

  /** The delete of delete_user_word: the new table, and whether a row was removed. */
  function Remove(m: UserWords, userId: int, word: string): (r: (UserWords, bool))
    ensures r.1 <==> WordKey(userId, Strip(word)) in m
    ensures r.0.Keys == m.Keys - {WordKey(userId, Strip(word))}
    ensures forall k :: k in r.0 ==> r.0[k] == m[k]
  {
    var key := WordKey(userId, Strip(word));
    (m - {key}, key in m)
  }

  /** Every stored word and translation is already stripped: what the upsert writes. */
  predicate Normalized(m: UserWords)
  {
    forall k :: k in m ==> Strip(k.word) == k.word && Strip(m[k]) == m[k]
  }

  lemma UpsertNormalized(m: UserWords, userId: int, word: string, translation: string)
    requires Normalized(m)
    ensures Normalized(Upsert(m, userId, word, translation))
  {
    StripIdempotent(word);
    StripIdempotent(translation);
  }

  /** The rows of one user, as keys. */
  function KeysOf(m: UserWords, userId: int): set<WordKey>
  {
    set k | k in m && k.userId == userId
  }

  /** The words of one user. */
  function WordsOf(m: UserWords, userId: int): (ws: set<string>)
    ensures forall w :: w in ws <==> WordKey(userId, w) in m
  {
    set k | k in m && k.userId == userId :: k.word
  }

  /** get_user_words_count: SELECT COUNT(*) of the user's rows. */
  function WordCount(m: UserWords, userId: int): (n: nat)
    ensures n == 0 <==> forall k :: k in m ==> k.userId != userId
    ensures n <= |m|
  {
    assert KeysOf(m, userId) <= m.Keys;
    NoKeys(m, userId);
    SubsetSize(KeysOf(m, userId), m.Keys);
    |KeysOf(m, userId)|
  }

  /** A user has no rows exactly when no key of the table carries that user's id. */
  lemma NoKeys(m: UserWords, userId: int)
    ensures KeysOf(m, userId) == {} <==> forall k :: k in m ==> k.userId != userId
  {
    forall k | k in m && k.userId == userId ensures k in KeysOf(m, userId) {
    }
    if KeysOf(m, userId) != {} {
      var k :| k in KeysOf(m, userId);
      assert k in m && k.userId == userId;
    }
  }

  lemma {:induction false} SubsetSize<T>(a: set<T>, b: set<T>)
    requires a <= b
    ensures |a| <= |b|
    decreases |b|
  {
    if a != {} {
      var x :| x in a;
      SubsetSize(a - {x}, b - {x});
    }
  }

  /**
   * get_user_words: the user's (word, translation) pairs, ORDER BY word. As
   * words are unique per user, the order is strict and the listing determined.
   */
  function Listing(m: UserWords, userId: int): (rows: seq<Pair>)
    ensures |rows| == |WordsOf(m, userId)|
    ensures forall i :: 0 <= i < |rows| ==>
      WordKey(userId, rows[i].word) in m && rows[i].translation == m[WordKey(userId, rows[i].word)]
    ensures forall k :: k in m && k.userId == userId ==> Pair(k.word, m[k]) in rows
    ensures forall i, j :: 0 <= i < j < |rows| ==> Less(rows[i].word, rows[j].word)
  {
    var ws := SortedWords(WordsOf(m, userId));
    assert forall i :: 0 <= i < |ws| ==> WordKey(userId, ws[i]) in m;
    var rows := seq(|ws|, i requires 0 <= i < |ws| => Pair(ws[i], m[WordKey(userId, ws[i])]));
    RowsCover(ws, rows, m, userId);
    rows
  }

  /** Rows that pair every word of the user with its translation list every row of the user. */
  lemma RowsCover(ws: seq<string>, rows: seq<Pair>, m: UserWords, userId: int)
    requires |rows| == |ws|
    requires forall i :: 0 <= i < |ws| ==> WordKey(userId, ws[i]) in m && rows[i] == Pair(ws[i], m[WordKey(userId, ws[i])])
    requires forall w :: w in WordsOf(m, userId) ==> w in ws
    ensures forall k :: k in m && k.userId == userId ==> Pair(k.word, m[k]) in rows
  {
    forall k | k in m && k.userId == userId ensures Pair(k.word, m[k]) in rows {
      assert k.word in WordsOf(m, userId);
      var i :| 0 <= i < |ws| && ws[i] == k.word;
      assert rows[i] == Pair(k.word, m[k]);
    }
  }

  /** The user's keys are in one-to-one correspondence with the user's words. */
  lemma {:induction false} KeysWordsSameSize(ks: set<WordKey>, userId: int)
    requires forall k :: k in ks ==> k.userId == userId
    ensures |set k | k in ks :: k.word| == |ks|
    decreases |ks|
  {
    if ks != {} {
      var k :| k in ks;
      var rest := ks - {k};
      KeysWordsSameSize(rest, userId);
      var restWords := set k' | k' in rest :: k'.word;
      assert k.word !in restWords;
      assert (set k' | k' in ks :: k'.word) == restWords + {k.word};
    }
  }

  /** The length of get_user_words is what get_user_words_count reports. */
  lemma ListingLengthIsCount(m: UserWords, userId: int)
    ensures |Listing(m, userId)| == WordCount(m, userId)
  {
    KeysWordsSameSize(KeysOf(m, userId), userId);
    assert WordsOf(m, userId) == set k | k in KeysOf(m, userId) :: k.word;
  }

  /** After an upsert, the listing holds the stripped pair; other users' listings are untouched. */
  lemma UpsertThenList(m: UserWords, userId: int, word: string, translation: string)
    ensures Pair(Strip(word), Strip(translation)) in Listing(Upsert(m, userId, word, translation), userId)
    ensures forall other :: other != userId ==>
      Listing(Upsert(m, userId, word, translation), other) == Listing(m, other)
  {
    var m' := Upsert(m, userId, word, translation);
    forall other | other != userId ensures Listing(m', other) == Listing(m, other) {
      assert WordsOf(m', other) == WordsOf(m, other);
    }
  }

  /** Adding " cat " with translation " кот " to an empty table lists exactly the pair (cat, кот). */
  lemma AddTrimsExample()
    ensures Listing(Upsert(map[], 1, " cat ", " кот "), 1) == [Pair("cat", "кот")]
  {
    var w, t := " cat ", " кот ";
    assert FirstNonSpace(w, 1) == 1 && FirstNonSpace(w, 0) == 1;
    assert EndNonSpace(w, 1, 4) == 4 && EndNonSpace(w, 1, 5) == 4;
    assert Strip(w) == "cat";
    assert FirstNonSpace(t, 1) == 1 && FirstNonSpace(t, 0) == 1;
    assert EndNonSpace(t, 1, 4) == 4 && EndNonSpace(t, 1, 5) == 4;
    assert Strip(t) == "кот";
    var m := Upsert(map[], 1, w, t);
    assert m == map[WordKey(1, "cat") := "кот"];
    assert WordsOf(m, 1) == {"cat"};
    var rows := Listing(m, 1);
    assert |rows| == 1;
    assert WordKey(1, rows[0].word) in m;
  }

  /** A pair is listed exactly when it is one of the user's rows. */
  lemma InListing(m: UserWords, userId: int, p: Pair)
    ensures p in Listing(m, userId) <==> WordKey(userId, p.word) in m && m[WordKey(userId, p.word)] == p.translation
  {
    var rows := Listing(m, userId);
    if p in rows {
      var i :| 0 <= i < |rows| && rows[i] == p;
    }
  }

  /** After a delete, the listing is the old listing without the stripped word. */
  lemma RemoveThenList(m: UserWords, userId: int, word: string)
    ensures var after := Listing(Remove(m, userId, word).0, userId);
      forall p :: p in after <==> p in Listing(m, userId) && p.word != Strip(word)
  {
    var m' := Remove(m, userId, word).0;
    forall p ensures p in Listing(m', userId) <==> p in Listing(m, userId) && p.word != Strip(word) {
      InListing(m, userId, p);
      InListing(m', userId, p);
    }
  }

  /**
   * The database the bot talks to. Connections, transactions and SQL text are
   * not modelled; each call either takes effect whole or, when `fault` holds
   * (the connection or the query raised), changes nothing and yields the
   * default value the function returns from its exception handler.
   */
  class Database {
    var users: UsersTable
    var baseWords: seq<Pair>
    var userWords: UserWords

    ghost predicate Valid()
      reads this
    {
      UsersValid(users) && Normalized(userWords)
    }

    constructor (baseWords: seq<Pair>)
      ensures Valid()
      ensures this.baseWords == baseWords && userWords == map[] && users == UsersTable(map[], 1)
    {
      this.baseWords := baseWords;
      userWords := map[];
      users := UsersTable(map[], 1);
    }

    /** get_or_create_user: the user's id, or None when the store failed. */
    method GetOrCreateUser(u: TelegramUser, fault: bool) returns (id: Option<int>)
      requires Valid()
      modifies this
      ensures Valid()
      ensures baseWords == old(baseWords) && userWords == old(userWords)
      ensures fault ==> id == None && users == old(users)
      ensures !fault ==> id == Some(Register(old(users), u).1) && users == Register(old(users), u).0
      ensures id.Some? ==> id.value >= 1
      ensures id.Some? && u.telegramId in old(users).rows ==> id.value == old(users).rows[u.telegramId].id
    {
      if fault {
        return None;
      }
      RegisterPreservesValid(users, u);
      var r := Register(users, u);
      users := r.0;
      id := Some(r.1);
    }

    /** add_user_word: true when the upsert went through. */
    method AddUserWord(userId: int, word: string, translation: string, fault: bool) returns (ok: bool)
      requires Valid()
      modifies this
      ensures Valid()
      ensures baseWords == old(baseWords) && users == old(users)
      ensures ok == !fault
      ensures userWords == if fault then old(userWords) else Upsert(old(userWords), userId, word, translation)
    {
      if fault {
        return false;
      }
      UpsertNormalized(userWords, userId, word, translation);
      userWords := Upsert(userWords, userId, word, translation);
      ok := true;
    }

    /** delete_user_word: true exactly when the row (user_id, stripped word) existed and was removed. */
    method DeleteUserWord(userId: int, word: string, fault: bool) returns (deleted: bool)
      requires Valid()
      modifies this
      ensures Valid()
      ensures baseWords == old(baseWords) && users == old(users)
      ensures deleted == (!fault && WordKey(userId, Strip(word)) in old(userWords))
      ensures userWords == if fault then old(userWords) else Remove(old(userWords), userId, word).0
    {
      if fault {
        return false;
      }
      var r := Remove(userWords, userId, word);
      userWords := r.0;
      deleted := r.1;
    }
  }
}
