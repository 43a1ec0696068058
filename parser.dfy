// src/parser/parser.cpp: the token normaliser, the word tokenizer and the
// term-position builder of Parser::parse. The HTML walk (title, text, links)
// is done by gumbo; its results enter the model as inputs of ParseText.

module Parsing {
  import opened Strings

  /** A character of the regex class \w: a letter, a digit or '_' */
  predicate IsWordChar(c: char)
  {
    IsAlnum(c) || c == '_'
  }

  predicate AllWordChars(s: string)
  {
    forall i :: 0 <= i < |s| ==> IsWordChar(s[i])
  }

  /** std::remove_if(..., !isalnum): the alphanumeric characters of s, in order */
  function KeepAlnum(s: string): (r: string)
    ensures |r| <= |s|
    ensures forall i :: 0 <= i < |r| ==> IsAlnum(r[i]) && r[i] in s
  {
    if |s| == 0 then ""
    else (if IsAlnum(s[0]) then [s[0]] else []) + KeepAlnum(s[1..])
  }

  /** Parser::normalize_token: lower-case, then drop every non-alphanumeric character */
  function NormalizeToken(token: string): (r: string)
    ensures |r| <= |token|
    ensures forall i :: 0 <= i < |r| ==> IsAlnum(r[i]) && !IsUpper(r[i])
  {
    KeepAlnum(Lower(token))
  }

  lemma {:induction false} KeepAlnumConcat(a: string, b: string)
    decreases |a|
    ensures KeepAlnum(a + b) == KeepAlnum(a) + KeepAlnum(b)
  {
    if |a| == 0 {
      assert a + b == b;
    } else {
      assert (a + b)[1..] == a[1..] + b;
      KeepAlnumConcat(a[1..], b);
    }
  }

  /** normalize_token works character by character: it maps the concatenation of two
      texts to the concatenation of their images, and one character to its lower case
      when it is alphanumeric and to nothing otherwise */
  lemma NormalizeTokenIsPointwise(a: string, b: string, c: char)
    ensures NormalizeToken(a + b) == NormalizeToken(a) + NormalizeToken(b)
    ensures NormalizeToken([c]) == if IsAlnum(c) then [ToLower(c)] else []
  {
    assert Lower(a + b) == Lower(a) + Lower(b);
    KeepAlnumConcat(Lower(a), Lower(b));
    assert Lower([c]) == [ToLower(c)];
    assert [ToLower(c)][1..] == [];
  }

  /** On a text of lower-case alphanumerics normalize_token is the identity */
  lemma {:induction false} KeepAlnumOfLowerAlnum(s: string)
    decreases |s|
    requires forall i :: 0 <= i < |s| ==> IsAlnum(s[i]) && !IsUpper(s[i])
    ensures KeepAlnum(s) == s
    ensures Lower(s) == s
  {
    if |s| > 0 {
      KeepAlnumOfLowerAlnum(s[1..]);
    }
  }

  /** normalize_token is idempotent */
  lemma NormalizeTokenIdempotent(token: string)
    ensures NormalizeToken(NormalizeToken(token)) == NormalizeToken(token)
  {
    KeepAlnumOfLowerAlnum(NormalizeToken(token));
  }

  /** The length of the run of word characters that starts s */
  function WordRun(s: string): (n: nat)
    decreases |s|
    ensures n <= |s| && AllWordChars(s[..n])
    ensures n < |s| ==> !IsWordChar(s[n])
  {
    if |s| == 0 || !IsWordChar(s[0]) then 0
    else assert s[..1 + WordRun(s[1..])] == [s[0]] + s[1..][..WordRun(s[1..])]; 1 + WordRun(s[1..])
  }

  /** Parser::tokenize: every match of \b\w+\b, left to right. A match begins at a word
      character with no word character before it and takes the whole run. */
  function Tokenize(text: string): (tokens: seq<string>)
    decreases |text|
    ensures forall k :: 0 <= k < |tokens| ==> |tokens[k]| > 0 && AllWordChars(tokens[k])
  {
    if |text| == 0 then []
    else if !IsWordChar(text[0]) then Tokenize(text[1..])
    else var n := WordRun(text); [text[..n]] + Tokenize(text[n..])
  }

  /** A run that a non-word character ends is not lengthened by what follows */
  lemma {:induction false} WordRunStops(a: string, c: char, b: string)
    decreases |a|
    requires !IsWordChar(c)
    ensures WordRun(a + [c] + b) == WordRun(a)
    ensures WordRun(a + [c] + b) <= |a|
  {
    if |a| > 0 && IsWordChar(a[0]) {
      assert (a + [c] + b)[1..] == a[1..] + [c] + b;
      WordRunStops(a[1..], c, b);
    }
  }

  /** Tokenizing splits at every non-word character: the tokens of a + [c] + b are the
      tokens of a followed by the tokens of b */
  lemma {:induction false} TokenizeSplits(a: string, c: char, b: string)
    decreases |a|
    requires !IsWordChar(c)
    ensures Tokenize(a + [c] + b) == Tokenize(a) + Tokenize(b)
  {
    var s := a + [c] + b;
    if |a| == 0 {
      assert s[1..] == b;
    } else if !IsWordChar(a[0]) {
      assert s[1..] == a[1..] + [c] + b;
      TokenizeSplits(a[1..], c, b);
    } else {
      WordRunStops(a, c, b);
      var n := WordRun(a);
      assert s[..n] == a[..n];
      assert s[n..] == a[n..] + [c] + b;
      TokenizeSplits(a[n..], c, b);
    }
  }

  /** A non-empty run of word characters is one token */
  lemma TokenizeWord(w: string)
    requires |w| > 0 && AllWordChars(w)
    ensures Tokenize(w) == [w]
  {
    WordRunAll(w);
    assert w[..|w|] == w;
    assert w[|w|..] == [];
  }

  lemma {:induction false} WordRunAll(w: string)
    decreases |w|
    requires AllWordChars(w)
    ensures WordRun(w) == |w|
  {
    if |w| > 0 {
      WordRunAll(w[1..]);
    }
  }

  /** Text with no word character has no token */
  lemma {:induction false} TokenizeNoWord(s: string)
    decreases |s|
    requires forall i :: 0 <= i < |s| ==> !IsWordChar(s[i])
    ensures Tokenize(s) == []
  {
    if |s| > 0 {
      TokenizeNoWord(s[1..]);
    }
  }

  /** The positions, in increasing order, of the tokens that normalise to `term` */
  function PositionsOf(tokens: seq<string>, term: string): (ps: seq<nat>)
    decreases |tokens|
  {
    if |tokens| == 0 then []
    else PositionsOf(tokens[..|tokens| - 1], term)
         + (if NormalizeToken(tokens[|tokens| - 1]) == term then [|tokens| - 1] else [])
  }

  predicate StrictlyIncreasing(ps: seq<nat>)
  {
    forall i, j :: 0 <= i < j < |ps| ==> ps[i] < ps[j]
  }

  /** Extending the tokens by one appends that index when it normalises to the term */
  lemma PositionsOfSnoc(tokens: seq<string>, i: nat, term: string)
    requires i < |tokens|
    ensures PositionsOf(tokens[..i + 1], term)
      == PositionsOf(tokens[..i], term) + (if NormalizeToken(tokens[i]) == term then [i] else [])
  {
    assert tokens[..i + 1][..i] == tokens[..i];
  }

  /** A position list holds, in increasing order and each once, exactly the indices of
      the tokens that normalise to the term */
  lemma {:induction false} PositionsOfSpec(tokens: seq<string>, term: string)
    decreases |tokens|
    ensures StrictlyIncreasing(PositionsOf(tokens, term))
    ensures forall p: nat :: p in PositionsOf(tokens, term) <==> p < |tokens| && NormalizeToken(tokens[p]) == term
  {
    if |tokens| > 0 {
      var init := tokens[..|tokens| - 1];
      PositionsOfSpec(init, term);
      assert forall p: nat :: p < |init| ==> init[p] == tokens[p];
      var ps := PositionsOf(init, term);
      var all := PositionsOf(tokens, term);
      forall i, j | 0 <= i < j < |all|
        ensures all[i] < all[j]
      {
        if j == |ps| {
          assert all[i] == ps[i] && ps[i] in ps;
        }
      }
    }
  }

  /** The sum of the lengths of the position lists of a map */
  ghost function TotalLength(m: map<string, seq<nat>>): nat
    decreases |m.Keys|
  {
    if m == map[] then 0
    else var k :| k in m; |m[k]| + TotalLength(m - {k})
  }

  /** The sum does not depend on which key is taken first */
  lemma {:induction false} TotalLengthRemove(m: map<string, seq<nat>>, k: string)
    decreases |m.Keys|
    requires k in m
    ensures TotalLength(m) == |m[k]| + TotalLength(m - {k})
  {
    var j :| j in m && TotalLength(m) == |m[j]| + TotalLength(m - {j});
    if j != k {
      assert (m - {j}).Keys == m.Keys - {j};
      assert (m - {k}).Keys == m.Keys - {k};
      TotalLengthRemove(m - {j}, k);
      TotalLengthRemove(m - {k}, j);
      assert m - {j} - {k} == m - {k} - {j};
    }
  }

  /** term_positions[term].push_back(p): an absent term starts from the empty list */
  function AddPosition(m: map<string, seq<nat>>, term: string, p: nat): map<string, seq<nat>>
  {
    m[term := (if term in m then m[term] else []) + [p]]
  }

  /** Appending one position to one list adds one to the sum */
  lemma TotalLengthPush(m: map<string, seq<nat>>, t: string, p: nat)
    ensures TotalLength(AddPosition(m, t, p)) == TotalLength(m) + 1
  {
    var m' := AddPosition(m, t, p);
    TotalLengthRemove(m', t);
    assert m' - {t} == m - {t};
    if t in m {
      TotalLengthRemove(m, t);
    } else {
      assert m - {t} == m;
    }
  }

  /** The table holds, for each non-empty term that occurs, its positions among the tokens */
  ghost predicate TermTable(table: map<string, seq<nat>>, tokens: seq<string>)
  {
    && (forall t :: t in table <==> t != "" && PositionsOf(tokens, t) != [])
    && (forall t :: t in table ==> table[t] == PositionsOf(tokens, t))
  }

  /** One step of the term_positions loop extends the table to one more token */
  lemma TermTableStep(table: map<string, seq<nat>>, tokens: seq<string>, i: nat)
    requires i < |tokens| && TermTable(table, tokens[..i])
    ensures var n := NormalizeToken(tokens[i]);
      TermTable(if n != "" then AddPosition(table, n, i) else table, tokens[..i + 1])
  {
    forall t
      ensures PositionsOf(tokens[..i + 1], t)
        == PositionsOf(tokens[..i], t) + (if NormalizeToken(tokens[i]) == t then [i] else [])
    {
      PositionsOfSnoc(tokens, i, t);
    }
  }

  /** The keys of a complete table are the non-empty normalised tokens */
  lemma TermTableKeys(table: map<string, seq<nat>>, tokens: seq<string>)
    requires TermTable(table, tokens)
    ensures forall t :: t in table <==> t != "" && exists i :: 0 <= i < |tokens| && NormalizeToken(tokens[i]) == t
  {
    forall t
      ensures t in table <==> t != "" && exists i :: 0 <= i < |tokens| && NormalizeToken(tokens[i]) == t
    {
      PositionsOfSpec(tokens, t);
      if PositionsOf(tokens, t) != [] {
        assert PositionsOf(tokens, t)[0] in PositionsOf(tokens, t);
      }
    }
  }

  /** The term_positions loop of Parser::parse: index i is appended to the list of
      normalize_token(tokens[i]) when that is not empty */
  method BuildTermPositions(tokens: seq<string>) returns (termPositions: map<string, seq<nat>>)
    ensures forall t :: t in termPositions <==>
      t != "" && exists i :: 0 <= i < |tokens| && NormalizeToken(tokens[i]) == t
    ensures forall t :: t in termPositions ==> termPositions[t] == PositionsOf(tokens, t)
    ensures TotalLength(termPositions) <= |tokens|
  {
    termPositions := map[];
    for i := 0 to |tokens|
      invariant TermTable(termPositions, tokens[..i])
      invariant TotalLength(termPositions) <= i
    {
      TermTableStep(termPositions, tokens, i);
      var normalized := NormalizeToken(tokens[i]);
      if normalized != "" {
        TotalLengthPush(termPositions, normalized, i);
        termPositions := AddPosition(termPositions, normalized, i);
      }
    }
    assert tokens[..|tokens|] == tokens;
    TermTableKeys(termPositions, tokens);
  }

  /** Every list of term_positions is strictly increasing, below the token count, and a
      token index sits in the list of its normalised token and no other */
  lemma TermPositionsWellFormed(tokens: seq<string>, termPositions: map<string, seq<nat>>, t: string, i: nat)
    requires forall u :: u in termPositions ==> termPositions[u] == PositionsOf(tokens, u)
    requires t in termPositions
    ensures StrictlyIncreasing(termPositions[t])
    ensures forall p :: p in termPositions[t] ==> p < |tokens|
    ensures i in termPositions[t] <==> i < |tokens| && NormalizeToken(tokens[i]) == t
  {
    PositionsOfSpec(tokens, t);
  }

  /** The first components of the (url, anchor text) pairs, in order */
  method LinkUrls(linksWithAnchor: seq<(string, string)>) returns (links: seq<string>)
    ensures |links| == |linksWithAnchor|
    ensures forall i :: 0 <= i < |links| ==> links[i] == linksWithAnchor[i].0
  {
    links := [];
    for i := 0 to |linksWithAnchor|
      invariant |links| == i
      invariant forall k :: 0 <= k < i ==> links[k] == linksWithAnchor[k].0
    {
      links := links + [linksWithAnchor[i].0];
    }
  }

  /** ParsedDocument, without the metadata map that parse never fills */
  datatype ParsedDocument = ParsedDocument(
    url: string,
    title: string,
    textContent: string,
    links: seq<string>,
    linksWithAnchor: seq<(string, string)>,
    tokens: seq<string>,
    termPositions: map<string, seq<nat>>)

  /** Parser::parse after the HTML walk: the title, the text and the resolved links that
      gumbo produced are inputs; the links, tokens and term positions are computed */
  method ParseText(url: string, title: string, textContent: string, linksWithAnchor: seq<(string, string)>)
    returns (doc: ParsedDocument)
    ensures doc.url == url && doc.title == title && doc.textContent == textContent
    ensures doc.linksWithAnchor == linksWithAnchor
    ensures |doc.links| == |linksWithAnchor|
    ensures forall i :: 0 <= i < |doc.links| ==> doc.links[i] == linksWithAnchor[i].0
    ensures doc.tokens == Tokenize(textContent)
    ensures forall t :: t in doc.termPositions <==>
      t != "" && exists i :: 0 <= i < |doc.tokens| && NormalizeToken(doc.tokens[i]) == t
    ensures forall t :: t in doc.termPositions ==> doc.termPositions[t] == PositionsOf(doc.tokens, t)
  {
    var links := LinkUrls(linksWithAnchor);
    var tokens := Tokenize(textContent);
    var termPositions := BuildTermPositions(tokens);
    doc := ParsedDocument(url, title, textContent, links, linksWithAnchor, tokens, termPositions);
  }
}
