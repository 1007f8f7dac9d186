/** Rewriting bind markers into numbered placeholders. */
module Placeholders {
  import opened Bytes
  import opened Text

  // ---------- the lexical specification ----------

  predicate IsQuote(c: char) { c == '\'' || c == '"' || c == '`' }

  predicate IsTagStart(c: char) { c == '_' || 'a' <= c <= 'z' || 'A' <= c <= 'Z' }

  predicate IsTagPart(c: char) { IsTagStart(c) || IsDigit(c) }

  predicate IsBlank(c: char) { c == ' ' || c == '\t' || c == '\r' || c == '\n' }

  // The end of quoted text that starts at i: a backslash shields the next
  // character, and a doubled quote does not close.
  function QuoteEnd(q: string, i: nat, quote: char): (end: nat)
    requires i <= |q|
    ensures i <= end <= |q|
    decreases |q| - i
  {
    if i == |q| then i
    else if q[i] == '\\' && i + 1 < |q| then QuoteEnd(q, i + 2, quote)
    else if q[i] == quote then if i + 1 < |q| && q[i + 1] == quote then QuoteEnd(q, i + 2, quote) else i + 1
    else QuoteEnd(q, i + 1, quote)
  }

  function LineEnd(q: string, i: nat): (end: nat)
    requires i <= |q|
    ensures i <= end <= |q|
    decreases |q| - i
  {
    if i == |q| then i else if q[i] == '\n' || q[i] == '\r' then i + 1 else LineEnd(q, i + 1)
  }

  function BlockEnd(q: string, i: nat): (end: nat)
    requires i <= |q|
    ensures i <= end <= |q|
    decreases |q| - i
  {
    if i == |q| then i
    else if q[i] == '*' && i + 1 < |q| && q[i + 1] == '/' then i + 2
    else BlockEnd(q, i + 1)
  }

  predicate StartsWith(q: string, i: nat, s: string) { i + |s| <= |q| && q[i..i + |s|] == s }

  function DollarEnd(q: string, i: nat, delimiter: string): (end: nat)
    requires i <= |q|
    ensures i <= end <= |q|
    decreases |q| - i
  {
    if i == |q| then i
    else if StartsWith(q, i, delimiter) then i + |delimiter|
    else DollarEnd(q, i + 1, delimiter)
  }

  function TagEnd(q: string, i: nat): (end: nat)
    requires i <= |q|
    ensures i <= end <= |q|
    decreases |q| - i
  {
    if i < |q| && IsTagPart(q[i]) then TagEnd(q, i + 1) else i
  }

  // The dollar quote that opens at i: $$ or $tag$.
  function Delimiter(q: string, i: nat): (d: Option<string>)
    requires i < |q| && q[i] == '$'
    ensures d.Some? ==> |d.value| >= 2 && StartsWith(q, i, d.value)
  {
    if i + 1 < |q| && q[i + 1] == '$' then Some(q[i..i + 2])
    else if i + 1 >= |q| || !IsTagStart(q[i + 1]) then None
    else
      var end := TagEnd(q, i + 2);
      if end >= |q| || q[end] != '$' then None else Some(q[i..end + 1])
  }

  // The last character before i, and the first from i on, that are not blank.
  function Before(q: string, i: nat): (r: Option<char>)
    requires i <= |q|
  {
    if i == 0 then None else if IsBlank(q[i - 1]) then Before(q, i - 1) else Some(q[i - 1])
  }

  function Next(q: string, i: nat): (r: Option<char>)
    requires i <= |q|
    decreases |q| - i
  {
    if i == |q| then None else if IsBlank(q[i]) then Next(q, i + 1) else Some(q[i])
  }

  predicate EndsExpression(c: char) { c == ')' || c == ']' || IsQuote(c) || IsTagPart(c) }

  predicate StartsOperand(c: char) { c == '?' || IsQuote(c) || c == ':' || c == '$' || IsTagPart(c) }

  // The question mark at i is taken for an operator.
  predicate IsOperator(q: string, i: nat)
    requires i < |q|
  {
    (i + 1 < |q| && (q[i + 1] == '|' || q[i + 1] == '&'))
    || (Before(q, i).Some? && Next(q, i + 1).Some? && EndsExpression(Before(q, i).value) && StartsOperand(Next(q, i + 1).value))
  }

  datatype Mode = Code | Quoted(quote: char) | LineComment | BlockComment | DollarQuoted(delimiter: string)

  // Where text in a mode other than code ends.
  function End(q: string, i: nat, mode: Mode): (end: nat)
    requires i <= |q|
    ensures i <= end <= |q|
  {
    match mode
    case Code => i
    case Quoted(quote) => QuoteEnd(q, i, quote)
    case LineComment => LineEnd(q, i)
    case BlockComment => BlockEnd(q, i)
    case DollarQuoted(delimiter) => DollarEnd(q, i, delimiter)
  }

  // What code at i opens: how many characters, and the mode they lead to.
  function Opening(q: string, i: nat): (r: (nat, Mode))
    requires i < |q|
    ensures 0 < r.0 && i + r.0 <= |q|
  {
    var c := q[i];
    if IsQuote(c) then (1, Quoted(c))
    else if c == '-' && i + 1 < |q| && q[i + 1] == '-' then (2, LineComment)
    else if c == '/' && i + 1 < |q| && q[i + 1] == '*' then (2, BlockComment)
    else if c == '$' && Delimiter(q, i).Some? then (|Delimiter(q, i).value|, DollarQuoted(Delimiter(q, i).value))
    else (1, Code)
  }

  // The end of the piece of code or of quoted or commented text at i.
  function PieceEnd(q: string, i: nat): (end: nat)
    requires i < |q|
    ensures i < end <= |q|
  {
    var (n, mode) := Opening(q, i);
    End(q, i + n, mode)
  }

  datatype Piece = Verbatim(text: string) | Marker

  predicate IsMarker(q: string, i: nat)
    requires i < |q|
  {
    q[i] == '?' && !IsOperator(q, i)
  }

  // The query from a position in code, as pieces: a whole quotation or comment,
  // a bind marker, or one character of code.
  function Lex(q: string, i: nat): (pieces: seq<Piece>)
    requires i <= |q|
    decreases |q| - i
  {
    if i == |q| then []
    else if IsMarker(q, i) then [Marker] + Lex(q, i + 1)
    else [Verbatim(q[i..PieceEnd(q, i)])] + Lex(q, PieceEnd(q, i))
  }

  // Markers become $k+1, $k+2 and so on; everything else is copied.
  function Render(pieces: seq<Piece>, k: nat): string {
    if pieces == [] then []
    else
      match pieces[0]
      case Verbatim(text) => text + Render(pieces[1..], k)
      case Marker => "$" + Decimal(k + 1) + Render(pieces[1..], k + 1)
  }

  function Bound(q: string): string { Render(Lex(q, 0), 0) }

  // ---------- what rewriting keeps ----------

  function Restore(pieces: seq<Piece>): string {
    if pieces == [] then []
    else (if pieces[0].Marker? then "?" else pieces[0].text) + Restore(pieces[1..])
  }

  function Markers(pieces: seq<Piece>): nat {
    if pieces == [] then 0 else (if pieces[0].Marker? then 1 else 0) + Markers(pieces[1..])
  }

  lemma LexVerbatim(q: string, i: nat, end: nat)
    requires i < |q| && !IsMarker(q, i) && end == PieceEnd(q, i)
    ensures Lex(q, i) == [Verbatim(q[i..end])] + Lex(q, end)
  {
  }

  // Putting a question mark back for every marker gives the query.
  lemma {:induction false} LexRestores(q: string, i: nat)
    requires i <= |q|
    ensures Restore(Lex(q, i)) == q[i..]
    decreases |q| - i
  {
    if i < |q| {
      if IsMarker(q, i) {
        LexRestores(q, i + 1);
        RestoreCons(Marker, Lex(q, i + 1));
        assert q[i..] == "?" + q[i + 1..];
      } else {
        var end := PieceEnd(q, i);
        LexVerbatim(q, i, end);
        LexRestores(q, end);
        RestoreCons(Verbatim(q[i..end]), Lex(q, end));
        assert q[i..] == q[i..end] + q[end..];
      }
    }
  }

  lemma RestoreCons(p: Piece, rest: seq<Piece>)
    ensures Restore([p] + rest) == (if p.Marker? then "?" else p.text) + Restore(rest)
  {
    assert ([p] + rest)[1..] == rest;
  }

  // Rendering is piece by piece: the text before a marker does not depend on
  // what follows, and a marker's number is one more than the markers before it.
  lemma {:induction false} RenderJoin(a: seq<Piece>, b: seq<Piece>, k: nat)
    ensures Render(a + b, k) == Render(a, k) + Render(b, k + Markers(a))
  {
    if a == [] {
      assert a + b == b;
    } else {
      assert (a + b)[1..] == a[1..] + b;
      RenderJoin(a[1..], b, if a[0].Marker? then k + 1 else k);
    }
  }

  lemma RenderCons(p: Piece, after: seq<Piece>, k: nat)
    ensures Render([p] + after, k) ==
            if p.Marker? then "$" + Decimal(k + 1) + Render(after, k + 1) else p.text + Render(after, k)
  {
    assert ([p] + after)[1..] == after;
  }

  // Every quotation, comment and character of code is copied, and every marker
  // is rewritten to its number in order, in a decimal that reads back as it.
  lemma PieceByPiece(q: string, before: seq<Piece>, p: Piece, after: seq<Piece>)
    requires Lex(q, 0) == before + ([p] + after)
    ensures var k := Markers(before);
            Bound(q) == Render(before, 0) +
                        if p.Marker? then "$" + Decimal(k + 1) + Render(after, k + 1) else p.text + Render(after, k)
    ensures Value(Decimal(Markers(before) + 1)) == Markers(before) + 1
  {
    DecimalValue(Markers(before) + 1);
    RenderJoin(before, [p] + after, 0);
    RenderCons(p, after, Markers(before));
  }

  // Without markers the query is returned as it is.
  lemma {:induction false} NoMarkersNoChange(pieces: seq<Piece>, k: nat)
    requires Markers(pieces) == 0
    ensures Render(pieces, k) == Restore(pieces)
  {
    if pieces != [] {
      NoMarkersNoChange(pieces[1..], k);
    }
  }

  // ---------- where markers are ----------

  // Plain code: nothing opens a quotation or a comment.
  ghost predicate PlainAt(q: string, i: nat)
    requires i < |q|
  {
    && q[i] != '\'' && q[i] != '"' && q[i] != '`'
    && !(i + 1 < |q| && ((q[i] == '-' && q[i + 1] == '-') || (q[i] == '/' && q[i + 1] == '*')))
    && !(q[i] == '$' && OpensDollar(q, i))
  }

  // A dollar, a tag that is a name or empty, and a dollar.
  ghost predicate OpensDollar(q: string, i: nat)
    requires i < |q|
  {
    exists j :: i < j < |q| && IsDollarQuote(q, i, j)
  }

  ghost predicate IsDollarQuote(q: string, i: nat, j: nat)
    requires i < j < |q|
  {
    && q[i] == '$' && q[j] == '$' && (forall k :: i < k < j ==> IsWord(q[k]))
    && (i + 1 < j ==> !('0' <= q[i + 1] <= '9'))
  }

  ghost predicate IsWord(c: char) {
    c == '_' || '0' <= c <= '9' || 'a' <= c <= 'z' || 'A' <= c <= 'Z'
  }

  lemma {:induction false} TagEndIs(q: string, i: nat)
    requires i <= |q|
    ensures var end := TagEnd(q, i); (forall k :: i <= k < end ==> IsTagPart(q[k])) && (end < |q| ==> !IsTagPart(q[end]))
    decreases |q| - i
  {
    if i < |q| && IsTagPart(q[i]) {
      TagEndIs(q, i + 1);
    }
  }

  lemma DelimiterExactly(q: string, i: nat)
    requires i < |q| && q[i] == '$'
    ensures Delimiter(q, i).Some? <==> OpensDollar(q, i)
    ensures Delimiter(q, i).Some? ==> IsDollarQuote(q, i, i + |Delimiter(q, i).value| - 1)
  {
    if i + 1 < |q| && q[i + 1] == '$' {
      assert IsDollarQuote(q, i, i + 1);
    } else if i + 1 < |q| && IsTagStart(q[i + 1]) {
      TagEndIs(q, i + 2);
      var end := TagEnd(q, i + 2);
      if end < |q| && q[end] == '$' {
        assert IsDollarQuote(q, i, end);
      }
      forall j | i < j < |q| && IsDollarQuote(q, i, j) ensures j == end {
        assert j > i + 1 && !IsTagPart(q[j]);
      }
    }
  }

  // A question mark taken for an operator: a bar or an ampersand follows, or it
  // stands between the end of an expression and the start of an operand.
  ghost predicate Operates(q: string, i: nat)
    requires i < |q|
  {
    || (i + 1 < |q| && (q[i + 1] == '|' || q[i + 1] == '&'))
    || exists j, k :: 0 <= j < i && i < k < |q| && Around(q, i, j, k) && MayEnd(q[j]) && MayStart(q[k])
  }

  ghost predicate MayEnd(c: char) { IsWord(c) || c in [')', ']', '\'', '"', '`'] }

  ghost predicate MayStart(c: char) { IsWord(c) || c in ['?', ':', '$', '\'', '"', '`'] }

  // The nearest characters on both sides that are not blank.
  ghost predicate Around(q: string, i: nat, j: nat, k: nat)
    requires j < i < k < |q|
  {
    && !Blank(q[j]) && !Blank(q[k]) && (forall m :: j < m < i ==> Blank(q[m])) && (forall m :: i < m < k ==> Blank(q[m]))
  }

  ghost predicate Blank(c: char) { c in [' ', '\t', '\r', '\n'] }

  lemma {:induction false} BeforeIs(q: string, i: nat) returns (j: int)
    requires i <= |q|
    ensures -1 <= j < i && (forall m :: j < m < i ==> IsBlank(q[m]))
    ensures if j >= 0 then !IsBlank(q[j]) && Before(q, i) == Some(q[j]) else Before(q, i).None?
  {
    if i == 0 {
      j := -1;
    } else if IsBlank(q[i - 1]) {
      j := BeforeIs(q, i - 1);
    } else {
      j := i - 1;
    }
  }

  lemma {:induction false} NextIs(q: string, i: nat) returns (k: nat)
    requires i <= |q|
    ensures i <= k <= |q| && (forall m :: i <= m < k ==> IsBlank(q[m]))
    ensures if k < |q| then !IsBlank(q[k]) && Next(q, i) == Some(q[k]) else Next(q, i).None?
    decreases |q| - i
  {
    if i < |q| && IsBlank(q[i]) {
      k := NextIs(q, i + 1);
    } else {
      k := i;
    }
  }

  lemma OperatorExactly(q: string, i: nat)
    requires i < |q|
    ensures IsOperator(q, i) <==> Operates(q, i)
  {
    var j := BeforeIs(q, i);
    var k := NextIs(q, i + 1);
    if j >= 0 && k < |q| {
      assert Around(q, i, j, k);
    }
    if j', k' :| 0 <= j' < i && i < k' < |q| && Around(q, i, j', k') && MayEnd(q[j']) && MayStart(q[k']) {
      assert j' == j && k' == k;
    }
  }

  // In code, a question mark that is no operator is a marker.
  lemma MarkerInCode(q: string, i: nat)
    requires i < |q| && q[i] == '?' && !Operates(q, i)
    ensures Lex(q, i) == [Marker] + Lex(q, i + 1)
  {
    OperatorExactly(q, i);
  }

  // In code, any other plain character is copied.
  lemma PlainInCode(q: string, i: nat)
    requires i < |q| && PlainAt(q, i) && (q[i] != '?' || Operates(q, i))
    ensures Lex(q, i) == [Verbatim([q[i]])] + Lex(q, i + 1)
  {
    OperatorExactly(q, i);
    if q[i] == '$' {
      DelimiterExactly(q, i);
    }
    assert q[i..i + 1] == [q[i]];
  }

  // What stands between quotation marks is copied, question marks and all: text
  // of the quoted kind up to the closing mark, where a backslash shields what
  // follows and a doubled mark is part of the text.
  ghost predicate QuotedText(q: string, i: nat, j: nat, quote: char)
    requires i <= j < |q|
    decreases j - i
  {
    if i == j then q[j] == quote && !(j + 1 < |q| && q[j + 1] == quote)
    else if q[i] == '\\' then i + 2 <= j && QuotedText(q, i + 2, j, quote)
    else if q[i] == quote then i + 2 <= j && q[i + 1] == quote && QuotedText(q, i + 2, j, quote)
    else QuotedText(q, i + 1, j, quote)
  }

  lemma {:induction false} QuoteEndsAt(q: string, i: nat, j: nat, quote: char)
    requires i <= j < |q| && quote != '\\' && QuotedText(q, i, j, quote)
    ensures QuoteEnd(q, i, quote) == j + 1
    decreases j - i
  {
    if i < j {
      if q[i] == '\\' || q[i] == quote {
        QuoteEndsAt(q, i + 2, j, quote);
      } else {
        QuoteEndsAt(q, i + 1, j, quote);
      }
    }
  }

  // Text that code opens is one piece, copied up to where it ends.
  lemma PieceInCode(q: string, i: nat, n: nat, mode: Mode, end: nat)
    requires i < |q| && q[i] != '?' && Opening(q, i) == (n, mode) && end == End(q, i + n, mode)
    ensures Lex(q, i) == [Verbatim(q[i..end])] + Lex(q, end)
  {
    assert PieceEnd(q, i) == end;
    LexVerbatim(q, i, end);
  }

  lemma QuotedInCode(q: string, i: nat, j: nat)
    requires i < j < |q| && (q[i] == '\'' || q[i] == '"' || q[i] == '`') && QuotedText(q, i + 1, j, q[i])
    ensures Lex(q, i) == [Verbatim(q[i..j + 1])] + Lex(q, j + 1)
  {
    QuoteEndsAt(q, i + 1, j, q[i]);
    PieceInCode(q, i, 1, Quoted(q[i]), j + 1);
  }

  // A line comment is copied up to the end of its line.
  lemma {:induction false} LineEndsAt(q: string, i: nat, j: nat)
    requires i <= j < |q| && (forall k :: i <= k < j ==> q[k] != '\n' && q[k] != '\r') && (q[j] == '\n' || q[j] == '\r')
    ensures LineEnd(q, i) == j + 1
    decreases j - i
  {
    if i < j {
      LineEndsAt(q, i + 1, j);
    }
  }

  lemma LineCommentInCode(q: string, i: nat, j: nat)
    requires i + 2 <= j < |q| && q[i] == '-' && q[i + 1] == '-'
    requires (forall k :: i + 2 <= k < j ==> q[k] != '\n' && q[k] != '\r') && (q[j] == '\n' || q[j] == '\r')
    ensures Lex(q, i) == [Verbatim(q[i..j + 1])] + Lex(q, j + 1)
  {
    LineEndsAt(q, i + 2, j);
    PieceInCode(q, i, 2, LineComment, j + 1);
  }

  // A block comment is copied up to the first mark that closes it.
  lemma {:induction false} BlockEndsAt(q: string, i: nat, j: nat)
    requires i <= j && j + 1 < |q| && (forall k :: i <= k < j ==> !(q[k] == '*' && q[k + 1] == '/')) && q[j] == '*' && q[j + 1] == '/'
    ensures BlockEnd(q, i) == j + 2
    decreases j - i
  {
    if i < j {
      assert !(q[i] == '*' && q[i + 1] == '/');
      BlockEndsAt(q, i + 1, j);
    }
  }

  lemma BlockCommentInCode(q: string, i: nat, j: nat)
    requires i + 2 <= j && j + 1 < |q| && q[i] == '/' && q[i + 1] == '*'
    requires (forall k :: i + 2 <= k < j ==> !(q[k] == '*' && q[k + 1] == '/')) && q[j] == '*' && q[j + 1] == '/'
    ensures Lex(q, i) == [Verbatim(q[i..j + 2])] + Lex(q, j + 2)
  {
    BlockEndsAt(q, i + 2, j);
    PieceInCode(q, i, 2, BlockComment, j + 2);
  }

  // Dollar-quoted text is copied up to the next occurrence of what opened it.
  ghost predicate ClosesAt(q: string, i: nat, j: nat, delimiter: string) {
    i <= j && StartsWith(q, j, delimiter) && forall k :: i <= k < j ==> !StartsWith(q, k, delimiter)
  }

  lemma {:induction false} DollarEndsAt(q: string, i: nat, j: nat, delimiter: string)
    requires |delimiter| > 0 && ClosesAt(q, i, j, delimiter)
    ensures DollarEnd(q, i, delimiter) == j + |delimiter|
    decreases j - i
  {
    if i < j {
      assert !StartsWith(q, i, delimiter);
      DollarEndsAt(q, i + 1, j, delimiter);
    }
  }

  lemma DollarQuotedInCode(q: string, i: nat, m: nat, j: nat, delimiter: string)
    requires i < m < |q| && IsDollarQuote(q, i, m) && delimiter == q[i..m + 1] && ClosesAt(q, i + |delimiter|, j, delimiter)
    ensures Lex(q, i) == [Verbatim(q[i..j + |delimiter|])] + Lex(q, j + |delimiter|)
  {
    DelimiterIs(q, i, m);
    DollarOpens(q, i, delimiter);
    DollarText(q, i, j, delimiter);
  }

  lemma DollarText(q: string, i: nat, j: nat, delimiter: string)
    requires i < |q| && q[i] == '$' && |delimiter| > 0 && Opening(q, i) == (|delimiter|, DollarQuoted(delimiter))
    requires ClosesAt(q, i + |delimiter|, j, delimiter)
    ensures j + |delimiter| <= |q|
    ensures Lex(q, i) == [Verbatim(q[i..j + |delimiter|])] + Lex(q, j + |delimiter|)
  {
    DollarEndsAt(q, i + |delimiter|, j, delimiter);
    PieceInCode(q, i, |delimiter|, DollarQuoted(delimiter), j + |delimiter|);
  }

  lemma DollarOpens(q: string, i: nat, delimiter: string)
    requires i < |q| && q[i] == '$' && Delimiter(q, i) == Some(delimiter)
    ensures Opening(q, i) == (|delimiter|, DollarQuoted(delimiter))
  {
  }

  lemma DelimiterIs(q: string, i: nat, m: nat)
    requires i < m < |q| && IsDollarQuote(q, i, m)
    ensures Delimiter(q, i) == Some(q[i..m + 1])
  {
    assert OpensDollar(q, i);
    DelimiterExactly(q, i);
    SameDollarQuote(q, i, m, i + |Delimiter(q, i).value| - 1);
  }

  // No dollar is part of a tag, so the quote that opens at a position is unique.
  lemma SameDollarQuote(q: string, i: nat, m: nat, j: nat)
    requires i < m < |q| && i < j < |q| && IsDollarQuote(q, i, m) && IsDollarQuote(q, i, j)
    ensures m == j
  {
  }

  // ---------- text that is never closed ----------

  lemma LastPiece(q: string, i: nat, n: nat, mode: Mode)
    requires i < |q| && q[i] != '?' && Opening(q, i) == (n, mode) && End(q, i + n, mode) == |q|
    ensures Lex(q, i) == [Verbatim(q[i..])]
  {
    PieceInCode(q, i, n, mode, |q|);
    assert q[i..|q|] == q[i..];
  }

  ghost predicate QuoteOpen(q: string, i: nat, quote: char) {
    forall j :: i <= j < |q| ==> !QuotedText(q, i, j, quote)
  }

  lemma QuoteOpenLater(q: string, i: nat, quote: char, step: nat)
    requires i < |q| && quote != '\\' && QuoteOpen(q, i, quote) && i + step <= |q|
    requires if q[i] == '\\' || q[i] == quote then step == 2 && (q[i] == quote ==> q[i + 1] == quote) else step == 1
    ensures QuoteOpen(q, i + step, quote)
  {
    var next := i + step;
    forall j | next <= j < |q| ensures !QuotedText(q, next, j, quote) {
      assert !QuotedText(q, i, j, quote);
    }
  }

  lemma {:induction false} QuoteRunsOn(q: string, i: nat, quote: char)
    requires i <= |q| && quote != '\\' && QuoteOpen(q, i, quote)
    ensures QuoteEnd(q, i, quote) == |q|
    decreases |q| - i
  {
    if i < |q| {
      var doubled := i + 1 < |q| && q[i + 1] == quote;
      assert !QuotedText(q, i, i, quote);
      if i + 1 < |q| && (q[i] == '\\' || (q[i] == quote && doubled)) {
        QuoteOpenLater(q, i, quote, 2);
        QuoteRunsOn(q, i + 2, quote);
      } else if q[i] != '\\' {
        QuoteOpenLater(q, i, quote, 1);
        QuoteRunsOn(q, i + 1, quote);
      }
    }
  }

  lemma {:induction false} LineRunsOn(q: string, i: nat)
    requires i <= |q| && forall k :: i <= k < |q| ==> q[k] != '\n' && q[k] != '\r'
    ensures LineEnd(q, i) == |q|
    decreases |q| - i
  {
    if i < |q| {
      LineRunsOn(q, i + 1);
    }
  }

  lemma {:induction false} BlockRunsOn(q: string, i: nat)
    requires i <= |q| && forall k :: i <= k < |q| - 1 ==> !(q[k] == '*' && q[k + 1] == '/')
    ensures BlockEnd(q, i) == |q|
    decreases |q| - i
  {
    if i < |q| {
      BlockRunsOn(q, i + 1);
    }
  }

  ghost predicate NeverAgain(q: string, i: nat, delimiter: string) {
    forall k :: i <= k < |q| ==> !StartsWith(q, k, delimiter)
  }

  lemma {:induction false} DollarRunsOn(q: string, i: nat, delimiter: string)
    requires i <= |q| && NeverAgain(q, i, delimiter)
    ensures DollarEnd(q, i, delimiter) == |q|
    decreases |q| - i
  {
    if i < |q| {
      assert !StartsWith(q, i, delimiter);
      DollarRunsOn(q, i + 1, delimiter);
    }
  }

  // A quotation or comment that is never closed is copied to the end.
  lemma UnclosedQuote(q: string, i: nat)
    requires i < |q| && (q[i] == '\'' || q[i] == '"' || q[i] == '`') && QuoteOpen(q, i + 1, q[i])
    ensures Lex(q, i) == [Verbatim(q[i..])]
  {
    QuoteRunsOn(q, i + 1, q[i]);
    LastPiece(q, i, 1, Quoted(q[i]));
  }

  lemma UnclosedComment(q: string, i: nat)
    requires i + 1 < |q|
    requires || (q[i] == '-' && q[i + 1] == '-' && forall k :: i + 2 <= k < |q| ==> q[k] != '\n' && q[k] != '\r')
             || (q[i] == '/' && q[i + 1] == '*' && forall k :: i + 2 <= k < |q| - 1 ==> !(q[k] == '*' && q[k + 1] == '/'))
    ensures Lex(q, i) == [Verbatim(q[i..])]
  {
    if q[i] == '-' {
      LineRunsOn(q, i + 2);
      LastPiece(q, i, 2, LineComment);
    } else {
      BlockRunsOn(q, i + 2);
      LastPiece(q, i, 2, BlockComment);
    }
  }

  lemma UnclosedDollar(q: string, i: nat, m: nat, delimiter: string)
    requires i < m < |q| && IsDollarQuote(q, i, m) && delimiter == q[i..m + 1] && NeverAgain(q, m + 1, delimiter)
    ensures Lex(q, i) == [Verbatim(q[i..])]
  {
    var n, mode := DollarMode(q, i, m, delimiter);
    DollarOnly(q, i, n, mode);
  }

  lemma DollarMode(q: string, i: nat, m: nat, delimiter: string) returns (n: nat, mode: Mode)
    requires i < m < |q| && IsDollarQuote(q, i, m) && delimiter == q[i..m + 1] && NeverAgain(q, m + 1, delimiter)
    ensures i + n <= |q| && q[i] == '$' && Opening(q, i) == (n, mode) && End(q, i + n, mode) == |q|
  {
    DelimiterIs(q, i, m);
    DollarOpens(q, i, delimiter);
    n, mode := m + 1 - i, DollarQuoted(delimiter);
    NeverEnds(q, m + 1, delimiter, mode);
  }

  lemma DollarOnly(q: string, i: nat, n: nat, mode: Mode)
    requires i < |q| && i + n <= |q| && q[i] == '$' && Opening(q, i) == (n, mode) && End(q, i + n, mode) == |q|
    ensures Lex(q, i) == [Verbatim(q[i..])]
  {
    LastPiece(q, i, n, mode);
  }

  lemma NeverEnds(q: string, start: nat, delimiter: string, mode: Mode)
    requires start <= |q| && NeverAgain(q, start, delimiter) && mode == DollarQuoted(delimiter)
    ensures End(q, start, mode) == |q|
  {
    DollarRunsOn(q, start, delimiter);
  }

  // ---------- the single pass of the source ----------

  // What remains to be written at position i in a mode.
  function Rest(q: string, i: nat, mode: Mode, k: nat): string
    requires i <= |q|
  {
    q[i..End(q, i, mode)] + Render(Lex(q, End(q, i, mode)), k)
  }

  lemma RestInside(q: string, i: nat, j: nat, mode: Mode, k: nat)
    requires i <= j <= |q| && End(q, i, mode) == End(q, j, mode) >= j
    ensures Rest(q, i, mode, k) == q[i..j] + Rest(q, j, mode, k)
  {
    var end := End(q, i, mode);
    assert q[i..end] == q[i..j] + q[j..end];
  }

  lemma RestCloses(q: string, i: nat, j: nat, mode: Mode, k: nat)
    requires i <= j <= |q| && End(q, i, mode) == j
    ensures Rest(q, i, mode, k) == q[i..j] + Rest(q, j, Code, k)
  {
    assert q[j..j] == [];
  }

  lemma RestCode(q: string, i: nat, k: nat)
    requires i <= |q|
    ensures Rest(q, i, Code, k) == Render(Lex(q, i), k)
  {
    assert q[i..i] == [];
  }

  lemma SplitText(q: string, i: nat, m: nat, end: nat, rest: string)
    requires i <= m <= end <= |q|
    ensures q[i..end] + rest == q[i..m] + (q[m..end] + rest)
  {
    assert q[i..end] == q[i..m] + q[m..end];
  }

  lemma RenderVerbatim(q: string, i: nat, k: nat)
    requires i < |q| && !IsMarker(q, i)
    ensures Render(Lex(q, i), k) == q[i..PieceEnd(q, i)] + Render(Lex(q, PieceEnd(q, i)), k)
  {
    RenderCons(Verbatim(q[i..PieceEnd(q, i)]), Lex(q, PieceEnd(q, i)), k);
  }

  lemma RestFrom(q: string, i: nat, m: nat, mode: Mode, end: nat, k: nat)
    requires i <= m <= |q| && End(q, m, mode) == end
    ensures q[i..end] + Render(Lex(q, end), k) == q[i..m] + Rest(q, m, mode, k)
  {
    SplitText(q, i, m, end, Render(Lex(q, end), k));
  }

  lemma RestVerbatim(q: string, i: nat, k: nat)
    requires i < |q| && !IsMarker(q, i)
    ensures Rest(q, i, Code, k) == q[i..PieceEnd(q, i)] + Render(Lex(q, PieceEnd(q, i)), k)
  {
    RestCode(q, i, k);
    RenderVerbatim(q, i, k);
  }

  lemma RestOpens(q: string, i: nat, n: nat, mode: Mode, k: nat)
    requires i < |q| && !IsMarker(q, i) && (n, mode) == Opening(q, i)
    ensures Rest(q, i, Code, k) == q[i..i + n] + Rest(q, i + n, mode, k)
  {
    RestVerbatim(q, i, k);
    RestFrom(q, i, i + n, mode, PieceEnd(q, i), k);
  }

  lemma RestMarker(q: string, i: nat, k: nat)
    requires i < |q| && IsMarker(q, i)
    ensures Rest(q, i, Code, k) == "$" + Decimal(k + 1) + Rest(q, i + 1, Code, k + 1)
  {
    RestCode(q, i, k);
    RestCode(q, i + 1, k + 1);
    RenderCons(Marker, Lex(q, i + 1), k);
  }

  // The next step inside quoted, commented or dollar-quoted text.
  method StepInside(q: string, i: nat, mode: Mode) returns (next: nat, mode': Mode)
    requires i < |q| && mode != Code && (mode.DollarQuoted? ==> |mode.delimiter| > 0)
    ensures i < next <= |q| && (mode' == mode || mode' == Code)
    ensures mode' == mode ==> End(q, next, mode) == End(q, i, mode)
    ensures mode' == Code ==> End(q, i, mode) == next
  {
    var value := q[i];
    match mode {
      case Quoted(quote) =>
        if value == '\\' && i + 1 < |q| {
          return i + 2, mode;
        }
        if value == quote {
          if i + 1 < |q| && q[i + 1] == quote {
            return i + 2, mode;
          }
          return i + 1, Code;
        }
        return i + 1, mode;
      case LineComment =>
        return i + 1, if value == '\n' || value == '\r' then Code else mode;
      case BlockComment =>
        if value == '*' && i + 1 < |q| && q[i + 1] == '/' {
          return i + 2, Code;
        }
        return i + 1, mode;
      case DollarQuoted(delimiter) =>
        if i + |delimiter| <= |q| && q[i..i + |delimiter|] == delimiter {
          return i + |delimiter|, Code;
        }
        return i + 1, mode;
    }
  }

  method TagDelimiter(q: string, start: nat) returns (d: Option<string>)
    requires start < |q| && q[start] == '$'
    ensures d == Delimiter(q, start)
  {
    var end := start + 1;
    if end < |q| && q[end] == '$' {
      return Some(q[start..start + 2]);
    }
    if end >= |q| || !IsTagStart(q[end]) {
      return None;
    }
    end := end + 1;
    while end < |q| && IsTagPart(q[end])
      invariant start + 2 <= end <= |q| && TagEnd(q, end) == TagEnd(q, start + 2)
    {
      end := end + 1;
    }
    if end >= |q| || q[end] != '$' {
      return None;
    }
    return Some(q[start..end + 1]);
  }

  method TestOperator(q: string, i: nat) returns (r: bool)
    requires i < |q|
    ensures r == IsOperator(q, i)
  {
    if i + 1 < |q| && (q[i + 1] == '|' || q[i + 1] == '&') {
      return true;
    }
    var previous: int := i - 1;
    while previous >= 0 && IsBlank(q[previous])
      invariant -1 <= previous < i && Before(q, previous + 1) == Before(q, i)
    {
      previous := previous - 1;
    }
    var next := i + 1;
    while next < |q| && IsBlank(q[next])
      invariant i < next <= |q| && Next(q, next) == Next(q, i + 1)
    {
      next := next + 1;
    }
    if previous < 0 || next >= |q| {
      return false;
    }
    return EndsExpression(q[previous]) && StartsOperand(q[next]);
  }

  method StepCode(q: string, i: nat) returns (n: nat, mode: Mode)
    requires i < |q|
    ensures (n, mode) == Opening(q, i)
  {
    var value := q[i];
    if IsQuote(value) {
      return 1, Quoted(value);
    }
    if value == '-' || value == '/' {
      if i + 1 < |q| && ((value == '-' && q[i + 1] == '-') || (value == '/' && q[i + 1] == '*')) {
        return 2, if value == '-' then LineComment else BlockComment;
      }
      return 1, Code;
    }
    if value == '$' {
      var d := TagDelimiter(q, i);
      if d.Some? {
        return |d.value|, DollarQuoted(d.value);
      }
    }
    return 1, Code;
  }

  lemma Regroup(a: string, b: string, c: string)
    ensures a + (b + c) == a + b + c
  {
  }

  lemma RestAfter(q: string, i: nat, next: nat, mode: Mode, mode': Mode, k: nat, out: string)
    requires i < next <= |q| && mode != Code && (mode' == mode || mode' == Code)
    requires mode' == mode ==> End(q, next, mode) == End(q, i, mode)
    requires mode' == Code ==> End(q, i, mode) == next
    ensures out + Rest(q, i, mode, k) == out + q[i..next] + Rest(q, next, mode', k)
  {
    if mode' == mode {
      RestInside(q, i, next, mode, k);
    } else {
      RestCloses(q, i, next, mode, k);
    }
    Regroup(out, q[i..next], Rest(q, next, mode', k));
  }

  const MAX_INT: nat := 0x7fff_ffff_ffff_ffff

  // What one step in code writes, and where it leads.
  method WriteCode(q: string, i: nat, argument: nat) returns (text: string, next: nat, mode: Mode, argument': nat)
    requires i < |q| <= MAX_INT && argument <= i
    ensures i < next <= |q| && argument' <= next && (mode.DollarQuoted? ==> |mode.delimiter| > 0)
    ensures Rest(q, i, Code, argument) == text + Rest(q, next, mode, argument')
  {
    var operator := true;
    if q[i] == '?' {
      operator := TestOperator(q, i);
    }
    if operator {
      text, next, mode := WriteVerbatim(q, i, argument);
      return text, next, mode, argument;
    }
    RestMarker(q, i, argument);
    var number := Itoa(argument + 1);
    return "$" + number, i + 1, Code, argument + 1;
  }

  method WriteVerbatim(q: string, i: nat, ghost argument: nat) returns (text: string, next: nat, mode: Mode)
    requires i < |q| && !IsMarker(q, i)
    ensures i < next <= |q| && (mode.DollarQuoted? ==> |mode.delimiter| > 0)
    ensures Rest(q, i, Code, argument) == text + Rest(q, next, mode, argument)
  {
    var n, mode' := StepCode(q, i);
    RestOpens(q, i, n, mode', argument);
    return q[i..i + n], i + n, mode';
  }

  method BindPlaceholders(q: string) returns (out: string)
    requires |q| <= MAX_INT
    ensures out == Bound(q)
  {
    out := [];
    var argument: nat, i: nat, mode: Mode := 0, 0, Code;
    assert q[0..0] == [];
    while i < |q|
      invariant i <= |q| && argument <= i && (mode.DollarQuoted? ==> |mode.delimiter| > 0)
      invariant out + Rest(q, i, mode, argument) == Bound(q)
      decreases |q| - i
    {
      if mode != Code {
        var next, mode' := StepInside(q, i, mode);
        RestAfter(q, i, next, mode, mode', argument, out);
        out, i, mode := out + q[i..next], next, mode';
      } else {
        var text, next, mode', argument' := WriteCode(q, i, argument);
        Regroup(out, text, Rest(q, next, mode', argument'));
        out, i, mode, argument := out + text, next, mode', argument';
      }
    }
    assert Rest(q, i, mode, argument) == [];
  }

  // ---------- decimals ----------

  function TenTo(n: nat): nat { if n == 0 then 1 else 10 * TenTo(n - 1) }

  lemma {:induction false} DecimalLength(value: nat, n: nat)
    requires 0 < n && value < TenTo(n)
    ensures |Decimal(value)| <= n
  {
    if value >= 10 {
      assert n > 1;
      DecimalLength(value / 10, n - 1);
    }
  }

  lemma FitsTwenty(value: nat)
    requires value <= MAX_INT
    ensures |Decimal(value)| <= 20
  {
    assert TenTo(20) == 100_0000_0000 * 100_0000_0000 by {
      assert TenTo(10) == 100_0000_0000;
    }
    DecimalLength(value, 20);
  }

  // Digits from the last to the first, in a buffer of twenty.
  method Itoa(value: nat) returns (s: string)
    requires value <= MAX_INT
    ensures s == Decimal(value)
  {
    if value == 0 {
      return "0";
    }
    FitsTwenty(value);
    var digits := new char[20](_ => '0');
    var index, v := 20, value;
    while v > 0
      invariant 0 <= index <= 20
      invariant if v > 0 then Decimal(value) == Decimal(v) + digits[index..] else Decimal(value) == digits[index..]
      decreases v
    {
      assert |Decimal(value)| == |Decimal(v)| + 20 - index;
      ghost var tail := digits[index..];
      index := index - 1;
      digits[index] := Digit(v % 10);
      assert digits[index..] == [Digit(v % 10)] + tail;
      assert v >= 10 ==> Decimal(v) + tail == Decimal(v / 10) + ([Digit(v % 10)] + tail);
      v := v / 10;
    }
    s := digits[index..];
  }
}
