/**
 * Text helpers the bot relies on: Python's str.strip(), and the order in which
 * the database lists words (ORDER BY word), taken here as code-point order.
 */
module Text {

  /** The characters for which Python's str.isspace() holds; str.strip() removes these. */
  predicate IsWhitespace(c: char)
  {
    ('\t' <= c <= '\r') || ('\U{1C}' <= c <= ' ') || c == '\U{85}' || c == '\U{A0}'
    || c == '\U{1680}' || ('\U{2000}' <= c <= '\U{200A}') || c == '\U{2028}' || c == '\U{2029}'
    || c == '\U{202F}' || c == '\U{205F}' || c == '\U{3000}'
  }

  predicate AllWhitespace(s: string)
  {
    forall i :: 0 <= i < |s| ==> IsWhitespace(s[i])
  }

  /** True when s neither begins nor ends with whitespace. */
  predicate Trimmed(s: string)
  {
    s == [] || (!IsWhitespace(s[0]) && !IsWhitespace(s[|s| - 1]))
  }

  /** The first index at or after i whose character is not whitespace, or |s| when there is none. */
  function FirstNonSpace(s: string, i: nat): (j: nat)
    requires i <= |s|
    ensures i <= j <= |s|
    ensures forall k :: i <= k < j ==> IsWhitespace(s[k])
    ensures j < |s| ==> !IsWhitespace(s[j])
    decreases |s| - i
  {
    if i < |s| && IsWhitespace(s[i]) then FirstNonSpace(s, i + 1) else i
  }

  /** The end of s[lo..hi] once its trailing whitespace is dropped. */
  function EndNonSpace(s: string, lo: nat, hi: nat): (j: nat)
    requires lo <= hi <= |s|
    ensures lo <= j <= hi
    ensures forall k :: j <= k < hi ==> IsWhitespace(s[k])
    ensures j > lo ==> !IsWhitespace(s[j - 1])
  {
    if hi > lo && IsWhitespace(s[hi - 1]) then EndNonSpace(s, lo, hi - 1) else hi
  }

  /** Where the stripped piece of s begins and ends. */
  function StripStart(s: string): nat
  {
    FirstNonSpace(s, 0)
  }

  function StripEnd(s: string): (j: nat)
    ensures StripStart(s) <= j <= |s|
  {
    EndNonSpace(s, StripStart(s), |s|)
  }

  /** Python's str.strip() with no argument: the leading and the trailing whitespace removed. */
  function Strip(s: string): (r: string)
    ensures |r| <= |s|
    ensures Trimmed(r)
  {
    var i, j := StripStart(s), StripEnd(s);
    assert i < j ==> s[i..j][0] == s[i] && s[i..j][j - i - 1] == s[j - 1];
    s[i..j]
  }

  /** Strip keeps one contiguous piece of s, and everything before and after that piece is whitespace. */
  lemma StripShape(s: string)
    ensures var i, j := StripStart(s), StripEnd(s);
      && i <= j <= |s|
      && Strip(s) == s[i..j]
      && AllWhitespace(s[..i])
      && AllWhitespace(s[j..])
  {
    var i, j := StripStart(s), StripEnd(s);
    forall k | 0 <= k < i ensures IsWhitespace(s[..i][k]) {
      assert s[..i][k] == s[k];
    }
    forall k | 0 <= k < |s| - j ensures IsWhitespace(s[j..][k]) {
      assert s[j..][k] == s[j + k];
    }
  }

  /** A string that neither begins nor ends with whitespace is left as it is. */
  lemma StripTrimmed(s: string)
    requires Trimmed(s)
    ensures Strip(s) == s
  {
    if s != [] {
      assert StripStart(s) == 0;
      assert StripEnd(s) == |s|;
    }
  }

  /** Stripping twice is stripping once. */
  lemma StripIdempotent(s: string)
    ensures Strip(Strip(s)) == Strip(s)
  {
    StripTrimmed(Strip(s));
  }

  /** str.strip() yields the empty string exactly when the input is all whitespace. */
  lemma StripEmpty(s: string)
    ensures Strip(s) == [] <==> AllWhitespace(s)
  {
    StripShape(s);
    var i, j := StripStart(s), StripEnd(s);
    if Strip(s) == [] {
      assert i == |s|;
      forall k | 0 <= k < |s| ensures IsWhitespace(s[k]) {
        assert s[k] == s[..i][k];
      }
    } else {
      assert i < |s| && !IsWhitespace(s[i]);
    }
  }

  /** Lexicographic order on code points: the order of ORDER BY word under the "C" collation. */
  predicate LessEq(a: string, b: string)
  {
    |a| == 0 || (|b| > 0 && (a[0] < b[0] || (a[0] == b[0] && LessEq(a[1..], b[1..]))))
  }

  predicate Less(a: string, b: string)
  {
    LessEq(a, b) && a != b
  }

  lemma {:induction false} LessEqReflexive(a: string)
    ensures LessEq(a, a)
  {
    if |a| > 0 {
      LessEqReflexive(a[1..]);
    }
  }

  lemma {:induction false} LessEqTotal(a: string, b: string)
    ensures LessEq(a, b) || LessEq(b, a)
  {
    if |a| > 0 && |b| > 0 && a[0] == b[0] {
      LessEqTotal(a[1..], b[1..]);
    }
  }

  lemma {:induction false} LessEqAntisymmetric(a: string, b: string)
    requires LessEq(a, b) && LessEq(b, a)
    ensures a == b
  {
    if |a| > 0 && |b| > 0 {
      LessEqAntisymmetric(a[1..], b[1..]);
      assert a == [a[0]] + a[1..];
      assert b == [b[0]] + b[1..];
    }
  }

  lemma {:induction false} LessEqTransitive(a: string, b: string, c: string)
    requires LessEq(a, b) && LessEq(b, c)
    ensures LessEq(a, c)
  {
    if |a| > 0 && |b| > 0 && |c| > 0 && a[0] == b[0] == c[0] {
      LessEqTransitive(a[1..], b[1..], c[1..]);
    }
  }

  /** m is the first word of ws in the listing order. */
  predicate IsLeast(m: string, ws: set<string>)
  {
    m in ws && forall w :: w in ws ==> LessEq(m, w)
  }

  /** Every finite non-empty set of words has a first word. */
  lemma {:induction false} LeastExists(ws: set<string>)
    requires ws != {}
    ensures exists m :: IsLeast(m, ws)
    decreases |ws|
  {
    var x :| x in ws;
    LessEqReflexive(x);
    if ws == {x} {
      assert IsLeast(x, ws);
    } else {
      var rest := ws - {x};
      LeastExists(rest);
      var m :| IsLeast(m, rest);
      LessEqTotal(x, m);
      if LessEq(x, m) {
        forall w | w in ws ensures LessEq(x, w) {
          if w != x {
            LessEqTransitive(x, m, w);
          }
        }
        assert IsLeast(x, ws);
      } else {
        assert IsLeast(m, ws);
      }
    }
  }

  /** The first word of a set is unique. */
  lemma LeastUnique(ws: set<string>)
    ensures forall a, b :: IsLeast(a, ws) && IsLeast(b, ws) ==> a == b
  {
    forall a, b | IsLeast(a, ws) && IsLeast(b, ws) ensures a == b {
      LessEqAntisymmetric(a, b);
    }
  }

  /** The words of ws, each once, in strictly ascending order. */
  function SortedWords(ws: set<string>): (r: seq<string>)
    ensures |r| == |ws|
    ensures forall i :: 0 <= i < |r| ==> r[i] in ws
    ensures forall w :: w in ws ==> w in r
    ensures forall i, j :: 0 <= i < j < |r| ==> Less(r[i], r[j])
    decreases |ws|
  {
    if ws == {} then
      []
    else
      LeastExists(ws);
      LeastUnique(ws);
      var m :| IsLeast(m, ws);
      var rest := SortedWords(ws - {m});
      var r := [m] + rest;
      assert forall j :: 0 < j < |r| ==> r[j] == rest[j - 1];
      r
  }
}
