/** The string routines the image controller relies on, with the semantics of
    the JDK: java.util.StringTokenizer with the single delimiter ',',
    String.trim, String.contains, and the comma join built by
    convertTagsToString. */
module Text {

  /** A character String.trim strips: every char whose code is at most U+0020. */
  predicate IsTrimSpace(c: char) {
    c <= ' '
  }

  /** No character String.trim would strip at either end. */
  predicate IsTrimmed(s: string) {
    s == [] || (!IsTrimSpace(s[0]) && !IsTrimSpace(s[|s| - 1]))
  }

  predicate CommaFree(s: string) {
    ',' !in s
  }

  // ---------------------------------------------------------------------------
  // Tokenizing on ','
  // ---------------------------------------------------------------------------

  /** Index of the first comma of s, or |s| when s has none. */
  function TokenEnd(s: string): (k: nat)
    ensures k <= |s|
    ensures forall j :: 0 <= j < k ==> s[j] != ','
    ensures k < |s| ==> s[k] == ','
  {
    if s == [] || s[0] == ',' then 0 else 1 + TokenEnd(s[1..])
  }

  /** The tokens `new StringTokenizer(s, ",")` hands out, in order: each
      maximal run of non-comma characters. */
  function Tokens(s: string): (r: seq<string>)
    ensures forall i :: 0 <= i < |r| ==> r[i] != [] && CommaFree(r[i])
    decreases |s|
  {
    if s == [] then []
    else if s[0] == ',' then Tokens(s[1..])
    else
      var k := TokenEnd(s);
      assert forall j :: 0 <= j < k ==> s[..k][j] != ',';
      [s[..k]] + Tokens(s[k..])
  }

  /** The pieces between consecutive commas, empty pieces included: the
      reference against which Tokens is characterised. */
  function Split(s: string): (r: seq<string>)
    ensures |r| >= 1
    decreases |s|
  {
    var k := TokenEnd(s);
    if k == |s| then [s] else [s[..k]] + Split(s[k + 1..])
  }

  /** The non-empty strings of ws, in order. */
  function NonEmpty(ws: seq<string>): seq<string> {
    if ws == [] then []
    else (if ws[0] == [] then [] else [ws[0]]) + NonEmpty(ws[1..])
  }

  // ---------------------------------------------------------------------------
  // Joining with ','
  // ---------------------------------------------------------------------------

  /** The strings of ws separated by a single ',', nothing after the last:
      the result begins with the first string. */
  function Join(ws: seq<string>): (r: string)
    ensures |ws| > 0 ==> StartsWith(r, ws[0])
  {
    if |ws| == 0 then ""
    else if |ws| == 1 then ws[0]
    else ws[0] + "," + Join(ws[1..])
  }

  // ---------------------------------------------------------------------------
  // String.trim
  // ---------------------------------------------------------------------------

  /** Where String.trim's first scan stops: past the leading whitespace. */
  function TrimStart(s: string): (st: nat)
    ensures st <= |s|
    ensures forall j :: 0 <= j < st ==> IsTrimSpace(s[j])
    ensures st < |s| ==> !IsTrimSpace(s[st])
  {
    if s != [] && IsTrimSpace(s[0]) then 1 + TrimStart(s[1..]) else 0
  }

  /** Where String.trim's second scan stops: it walks back from the end over
      whitespace but never below st. */
  function TrimEnd(s: string, st: nat): (len: nat)
    requires st <= |s|
    ensures st <= len <= |s|
    ensures forall j :: len <= j < |s| ==> IsTrimSpace(s[j])
    ensures st < len ==> !IsTrimSpace(s[len - 1])
    decreases |s|
  {
    if st < |s| && IsTrimSpace(s[|s| - 1]) then TrimEnd(s[..|s| - 1], st) else |s|
  }

  /** String.trim: s without its leading and trailing chars <= U+0020. */
  function Trim(s: string): (r: string)
    ensures |r| <= |s|
    ensures IsTrimmed(r)
    ensures r == [] <==> forall j :: 0 <= j < |s| ==> IsTrimSpace(s[j])
    ensures IsTrimmed(s) ==> r == s
    ensures var st := TrimStart(s);
      && st + |r| <= |s| && s[st..st + |r|] == r
      && (forall j :: 0 <= j < st ==> IsTrimSpace(s[j]))
      && (forall j :: st + |r| <= j < |s| ==> IsTrimSpace(s[j]))
  {
    var st := TrimStart(s);
    var len := TrimEnd(s, st);
    assert s != [] && !IsTrimSpace(s[0]) ==> st == 0;
    assert s != [] && !IsTrimSpace(s[|s| - 1]) ==> len == |s|;
    s[st..len]
  }

  function TrimAll(ws: seq<string>): seq<string> {
    seq(|ws|, i requires 0 <= i < |ws| => Trim(ws[i]))
  }

  /** Trimming one more element of a prefix appends its trimmed form. */
  lemma TrimAllPrefix(ws: seq<string>, i: nat)
    requires i < |ws|
    ensures TrimAll(ws[..i + 1]) == TrimAll(ws[..i]) + [Trim(ws[i])]
  {
  }

  // ---------------------------------------------------------------------------
  // String.contains
  // ---------------------------------------------------------------------------

  predicate StartsWith(s: string, prefix: string) {
    |prefix| <= |s| && s[..|prefix|] == prefix
  }

  /** sub occurs in s starting at index i. */
  predicate OccursAt(s: string, sub: string, i: int) {
    0 <= i && i + |sub| <= |s| && s[i..i + |sub|] == sub
  }

  /** String.contains: s.indexOf(sub) >= 0, so also true for sub == "". */
  function Contains(s: string, sub: string): (r: bool)
    ensures sub == [] ==> r
    ensures r ==> |sub| <= |s|
    decreases |s|
  {
    StartsWith(s, sub) || (s != [] && Contains(s[1..], sub))
  }

  // ---------------------------------------------------------------------------
  // Lemmas
  // ---------------------------------------------------------------------------

  /** Contains searches for exactly the substrings of s. */
  lemma {:induction false} ContainsIff(s: string, sub: string)
    ensures Contains(s, sub) <==> exists i :: OccursAt(s, sub, i)
    decreases |s|
  {
    if s != [] {
      ContainsIff(s[1..], sub);
    }
    if Contains(s, sub) {
      if StartsWith(s, sub) {
        assert OccursAt(s, sub, 0);
      } else {
        var i :| OccursAt(s[1..], sub, i);
        assert s[i + 1..i + 1 + |sub|] == s[1..][i..i + |sub|];
        assert OccursAt(s, sub, i + 1);
      }
    }
    if exists i :: OccursAt(s, sub, i) {
      var i :| OccursAt(s, sub, i);
      if i == 0 {
        assert StartsWith(s, sub);
      } else {
        assert s[1..][i - 1..i - 1 + |sub|] == s[i..i + |sub|];
        assert OccursAt(s[1..], sub, i - 1);
      }
    }
  }

  /** Every character of a contained string occurs in the containing one. */
  lemma ContainsChar(s: string, sub: string, c: char)
    requires Contains(s, sub) && c in sub
    ensures c in s
  {
    ContainsIff(s, sub);
    var i :| OccursAt(s, sub, i);
    var j :| 0 <= j < |sub| && sub[j] == c;
    assert s[i + j] == s[i..i + |sub|][j];
  }

  lemma {:induction false} NonEmptyAppend(a: seq<string>, b: seq<string>)
    ensures NonEmpty(a + b) == NonEmpty(a) + NonEmpty(b)
  {
    if a == [] {
      assert a + b == b;
    } else {
      assert (a + b)[1..] == a[1..] + b;
      NonEmptyAppend(a[1..], b);
    }
  }

  lemma {:induction false} NonEmptyKeepsNonEmpty(ws: seq<string>)
    requires forall i :: 0 <= i < |ws| ==> ws[i] != []
    ensures NonEmpty(ws) == ws
  {
    if ws != [] {
      NonEmptyKeepsNonEmpty(ws[1..]);
    }
  }

  /** Where the first comma of a + t lies. */
  lemma {:induction false} TokenEndAppend(a: string, t: string)
    ensures TokenEnd(a + t) == if TokenEnd(a) < |a| then TokenEnd(a) else |a| + TokenEnd(t)
    decreases |a|
  {
    if a == [] {
      assert a + t == t;
    } else if a[0] != ',' {
      assert (a + t)[1..] == a[1..] + t;
      TokenEndAppend(a[1..], t);
    }
  }

  lemma {:induction false} TokenEndCommaFree(s: string)
    requires CommaFree(s)
    ensures TokenEnd(s) == |s|
  {
    if s != [] {
      assert s[0] in s;
      assert forall c :: c in s[1..] ==> c in s;
      TokenEndCommaFree(s[1..]);
    }
  }

  /** The tokenizer's tokens are exactly the non-empty comma-separated pieces. */
  lemma {:induction false} TokensAreNonEmptyPieces(s: string)
    ensures Tokens(s) == NonEmpty(Split(s))
    decreases |s|
  {
    if s == [] {
    } else if s[0] == ',' {
      assert Split(s) == [[]] + Split(s[1..]);
      TokensAreNonEmptyPieces(s[1..]);
    } else {
      var k := TokenEnd(s);
      if k < |s| {
        assert s[k..][1..] == s[k + 1..];
        TokensAreNonEmptyPieces(s[k + 1..]);
      } else {
        assert s[..k] == s && s[k..] == [];
      }
    }
  }

  /** Joining the pieces restores the string. */
  lemma {:induction false} JoinSplit(s: string)
    ensures Join(Split(s)) == s
    decreases |s|
  {
    var k := TokenEnd(s);
    if k < |s| {
      var rest := Split(s[k + 1..]);
      JoinSplit(s[k + 1..]);
      assert ([s[..k]] + rest)[1..] == rest;
      assert s == s[..k] + "," + s[k + 1..];
    }
  }

  /** The pieces hold no comma: every comma of s is a separator. */
  lemma {:induction false} SplitPiecesCommaFree(s: string)
    ensures forall i :: 0 <= i < |Split(s)| ==> CommaFree(Split(s)[i])
    decreases |s|
  {
    var k := TokenEnd(s);
    assert forall j :: 0 <= j < k ==> s[..k][j] != ',';
    if k < |s| {
      SplitPiecesCommaFree(s[k + 1..]);
    }
  }

  /** A comma splits a string into the pieces of either side. */
  lemma {:induction false} SplitAppend(a: string, b: string)
    ensures Split(a + "," + b) == Split(a) + Split(b)
    decreases |a|
  {
    var s := a + "," + b;
    var k := TokenEnd(a);
    assert s == a + ("," + b);
    TokenEndAppend(a, "," + b);
    if k == |a| {
      assert s[..|a|] == a;
      assert s[|a| + 1..] == b;
    } else {
      assert s[..k] == a[..k];
      assert s[k + 1..] == a[k + 1..] + "," + b;
      SplitAppend(a[k + 1..], b);
    }
  }

  /** Splitting a join of comma-free strings gives them back. */
  lemma {:induction false} SplitJoin(ws: seq<string>)
    requires |ws| >= 1
    requires forall i :: 0 <= i < |ws| ==> CommaFree(ws[i])
    ensures Split(Join(ws)) == ws
  {
    TokenEndCommaFree(ws[0]);
    if |ws| > 1 {
      SplitJoin(ws[1..]);
      SplitAppend(ws[0], Join(ws[1..]));
    }
  }

  /** The tokenizer is a left inverse of the join on non-empty, comma-free
      names (the round trip between convertTagsToString and findOrCreateTags). */
  lemma TokensJoin(ws: seq<string>)
    requires forall i :: 0 <= i < |ws| ==> ws[i] != [] && CommaFree(ws[i])
    ensures Tokens(Join(ws)) == ws
  {
    if ws != [] {
      TokensAreNonEmptyPieces(Join(ws));
      SplitJoin(ws);
      NonEmptyKeepsNonEmpty(ws);
    }
  }

  /** A comma between two strings tokenizes as the two sides' tokens. */
  lemma TokensAppend(a: string, b: string)
    ensures Tokens(a + "," + b) == Tokens(a) + Tokens(b)
  {
    TokensAreNonEmptyPieces(a + "," + b);
    TokensAreNonEmptyPieces(a);
    TokensAreNonEmptyPieces(b);
    SplitAppend(a, b);
    NonEmptyAppend(Split(a), Split(b));
  }

  /** Leading, trailing and doubled commas yield no token. */
  lemma CommaRunsYieldNothing(a: string, b: string)
    ensures Tokens("," + b) == Tokens(b)
    ensures Tokens(a + ",") == Tokens(a)
    ensures Tokens(a + ",," + b) == Tokens(a + "," + b)
  {
    TokensAppend("", b);
    assert "" + "," + b == "," + b;
    TokensAppend(a, "");
    assert a + "," + "" == a + ",";
    TokensAppend(a + ",", b);
    assert a + ",," + b == (a + ",") + "," + b;
    TokensAppend(a, b);
  }

  /** Join of names: the first name, then each further name after one ','. */
  lemma {:induction false} JoinSnoc(ws: seq<string>, w: string)
    ensures Join(ws + [w]) == if ws == [] then w else Join(ws) + "," + w
  {
    if |ws| == 1 {
      assert ws + [w] == [ws[0], w];
    } else if |ws| > 1 {
      assert (ws + [w])[1..] == ws[1..] + [w];
      JoinSnoc(ws[1..], w);
    }
  }

  /** Joining n >= 1 comma-free names puts exactly n - 1 commas in the result. */
  lemma {:induction false} JoinCommaCount(ws: seq<string>)
    requires |ws| >= 1
    requires forall i :: 0 <= i < |ws| ==> CommaFree(ws[i])
    ensures multiset(Join(ws))[','] == |ws| - 1
  {
    assert multiset(ws[0])[','] == 0;
    if |ws| > 1 {
      JoinCommaCount(ws[1..]);
      assert multiset(ws[0] + "," + Join(ws[1..])) == multiset(ws[0]) + multiset(",") + multiset(Join(ws[1..]));
    }
  }

  /** A whitespace-only token trims to the empty name rather than vanishing. */
  lemma BlankTokenTrimsToEmpty(s: string)
    requires s != []
    requires forall j :: 0 <= j < |s| ==> IsTrimSpace(s[j])
    ensures TrimAll(Tokens(s)) == [""]
  {
    assert forall j :: 0 <= j < |s| ==> s[j] != ',';
    assert CommaFree(s);
    TokensJoin([s]);
  }
}
