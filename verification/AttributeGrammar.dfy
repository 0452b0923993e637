/** What `HttpParseAttributes` (base/httpcommon.cc) makes of any text: a grammar whose texts
    are all texts, and what each of them means. */
module AttributeGrammar {
  import opened HttpText
  import opened HttpAttributes

  /** A character between quotes, with or without a backslash before it. */
  datatype Token = Token(escaped: bool, c: char)

  /** What follows a name: nothing, a value, a quoted value, or one whose closing quote is
      missing, perhaps with a lone backslash at its end. */
  datatype Shape = Lone | Unquoted(v: string) | Closed(tokens: seq<Token>) | Open(tokens: seq<Token>, stray: bool)

  datatype Piece = Piece(name: string, shape: Shape, comma: bool, gap: string)

  predicate Blank(s: string) { forall i :: 0 <= i < |s| ==> IsSpace(s[i]) }

  function Raw(tokens: seq<Token>): string
  {
    if tokens == [] then "" else TokenText(tokens[0]) + Raw(tokens[1..])
  }

  function TokenText(t: Token): string { if t.escaped then ['\\', t.c] else [t.c] }

  function Chars(tokens: seq<Token>): string { seq(|tokens|, i requires 0 <= i < |tokens| => tokens[i].c) }

  predicate Quotable(tokens: seq<Token>)
  {
    forall i :: 0 <= i < |tokens| ==> tokens[i].escaped || (tokens[i].c != '"' && tokens[i].c != '\\')
  }

  function Stray(stray: bool): string { if stray then ['\\'] else "" }

  function ShapeText(f: Shape): string
  {
    match f
    case Lone => ""
    case Unquoted(v) => ['='] + v
    case Closed(tokens) => ['=', '"'] + Raw(tokens) + ['"']
    case Open(tokens, stray) => ['=', '"'] + Raw(tokens) + Stray(stray)
  }

  function Meaning(p: Piece): HttpAttribute
  {
    HttpAttribute(p.name,
      match p.shape
      case Lone => ""
      case Unquoted(v) => v
      case Closed(tokens) => Chars(tokens)
      case Open(tokens, stray) => Chars(tokens) + Stray(stray))
  }

  function Comma(comma: bool): string { if comma then [','] else "" }

  function PieceText(p: Piece): string { p.name + (ShapeText(p.shape) + (Comma(p.comma) + p.gap)) }

  function Print(ps: seq<Piece>): string
  {
    if ps == [] then "" else PieceText(ps[0]) + Print(ps[1..])
  }

  function Meanings(ps: seq<Piece>): seq<HttpAttribute>
  {
    seq(|ps|, i requires 0 <= i < |ps| => Meaning(ps[i]))
  }

  /** White space ends a name or a bare value, unless the text ends; only a comma ends an
      empty value; nothing follows a missing quote. */
  predicate Formed(p: Piece, last: bool)
  {
    && IsName(p.name) && Blank(p.gap)
    && match p.shape
       case Lone => p.name != "" && !p.comma && (p.gap != "" || last)
       case Unquoted(v) =>
         && (forall i :: 0 <= i < |v| ==> !IsSpace(v[i]) && v[i] != ',')
         && (if v == "" then p.comma else v[0] != '=' && v[0] != '"')
         && (p.comma || p.gap != "" || last)
       case Closed(tokens) => Quotable(tokens)
       case Open(tokens, _) => Quotable(tokens) && last && !p.comma && p.gap == ""
  }

  /** A comma right behind a piece is its own. */
  predicate Apart(p: Piece, next: string) { p.comma || p.gap != "" || next == "" || next[0] != ',' }

  predicate Good(ps: seq<Piece>)
  {
    ps == [] || (Formed(ps[0], |ps| == 1) && Apart(ps[0], Print(ps[1..])) && Good(ps[1..]))
  }

  // ---------------------------------------------------------------------------
  // What a text means
  // ---------------------------------------------------------------------------

  lemma {:induction false} UnquoteRaw(tokens: seq<Token>, tail: string)
    requires Quotable(tokens)
    ensures Unquote(Raw(tokens) + tail).0 == Chars(tokens) + Unquote(tail).0
    ensures Unquote(Raw(tokens) + tail).1 == |Raw(tokens)| + Unquote(tail).1
  {
    hide Unquote;
    if tokens == [] {
      assert Raw(tokens) + tail == tail;
      assert Chars(tokens) + Unquote(tail).0 == Unquote(tail).0;
    } else {
      UnquoteRaw(tokens[1..], tail);
      var rest := Raw(tokens[1..]) + tail;
      UnquoteToken(tokens[0], rest);
      assert Raw(tokens) + tail == TokenText(tokens[0]) + rest;
      assert Chars(tokens) == [tokens[0].c] + Chars(tokens[1..]);
    }
  }

  lemma UnquoteToken(t: Token, rest: string)
    requires t.escaped || (t.c != '"' && t.c != '\\')
    ensures Unquote(TokenText(t) + rest).0 == [t.c] + Unquote(rest).0
    ensures Unquote(TokenText(t) + rest).1 == |TokenText(t)| + Unquote(rest).1
  {
    var s := TokenText(t) + rest;
    assert s[|TokenText(t)|..] == rest;
  }

  lemma UnquoteEnds(stray: bool, rest: string)
    ensures Unquote(['"'] + rest) == ("", 1)
    ensures Unquote(Stray(stray)) == (Stray(stray), |Stray(stray)|)
  {
    var s := Stray(stray);
    if stray {
      assert s[1..] == "" && [s[0]] + "" == s;
      assert Unquote(s[1..]) == ("", 0);
    }
  }

  /** What may follow a shape. */
  predicate Fits(f: Shape, after: string)
  {
    match f
    case Lone => after == "" || IsSpace(after[0])
    case Unquoted(v) =>
      && (forall i :: 0 <= i < |v| ==> !IsSpace(v[i]) && v[i] != ',')
      && (after == "" || IsSpace(after[0]) || after[0] == ',')
      && (if v == "" then after != "" && after[0] == ',' else v[0] != '=' && v[0] != '"')
    case Closed(tokens) => Quotable(tokens)
    case Open(tokens, _) => Quotable(tokens) && after == ""
  }

  function ShapeValue(f: Shape): string { Meaning(Piece("", f, false, "")).value }

  /** The value behind a name, where `after` is what follows its shape. */
  lemma ShapeReads(f: Shape, after: string)
    requires Fits(f, after)
    ensures Value(ShapeText(f) + after) == (ShapeValue(f), |ShapeText(f)|)
  {
    match f
    case Lone => assert ShapeText(f) + after == after;
    case Unquoted(v) => BareValue(v, after);
    case Closed(tokens) =>
      hide Value;
      QuotedValue(tokens, ['"'], after);
    case Open(tokens, stray) =>
      hide Value;
      QuotedValue(tokens, Stray(stray), after);
  }

  lemma BareValue(v: string, after: string)
    requires (forall i :: 0 <= i < |v| ==> !IsSpace(v[i]) && v[i] != ',') && (v != "" ==> v[0] != '"')
    requires after == "" || IsSpace(after[0]) || after[0] == ','
    ensures Value(['='] + v + after) == (v, 1 + |v|)
  {
    BareReads(v, after);
    var s := ['='] + v + after;
    hide BareLength;
    assert s[1..] == v + after;
    assert s[1..1 + |v|] == v;
  }

  lemma QuotedValue(tokens: seq<Token>, end: string, after: string)
    requires Quotable(tokens)
    requires end == ['"'] || (after == "" && (end == "" || end == ['\\']))
    ensures Value(['=', '"'] + Raw(tokens) + end + after)
         == (if end == ['"'] then Chars(tokens) else Chars(tokens) + end, 2 + |Raw(tokens)| + |end|)
  {
    UnquoteRaw(tokens, end + after);
    UnquoteEnds(end != "", after);
    hide Unquote, Quotable, Raw, Value;
    if end != ['"'] { assert end + after == end == Stray(end != ""); }
    assert Chars(tokens) + "" == Chars(tokens);
    Quotes(Raw(tokens), end, after);
  }

  lemma Quotes(raw: string, end: string, after: string)
    ensures var r := Unquote(raw + (end + after));
      Value(['=', '"'] + raw + end + after) == (r.0, 2 + r.1)
  {
    hide Unquote;
    var s := ['=', '"'] + raw + end + after;
    assert s[2..] == raw + (end + after);
  }

  lemma NameEnds(name: string, f: Shape, after: string)
    requires IsName(name)
    requires Fits(f, after)
    ensures NameLength(name + (ShapeText(f) + after)) == |name|
  {
    var v := ShapeText(f) + after;
    if f.Lone? {
      assert v == after;
      LoneNameReads(name, v);
    } else {
      hide Raw, NameLength;
      assert v[0] == '=';
      NameReads(name, v);
    }
  }

  lemma FirstPiece(name: string, v: string, n: nat)
    requires name + v != "" && !IsSpace((name + v)[0]) && NameLength(name + v) == |name| && Value(v).1 == n
    ensures Parse(name + v) == [HttpAttribute(name, Value(v).0)] + Parse(if n < |v| && v[n] == ',' then v[n + 1..] else v[n..])
  {
    ValueFits(v);
    hide First, NameLength, Value;
    var s := name + v;
    assert s[..|name|] == name && s[|name|..] == v;
    FirstIs(s, |name|, v);
    TailOf(name, v, First(s).1 - |name|);
    ParseSplits(s);
  }

  lemma {:induction false} ParseBlank(gap: string, s: string)
    requires Blank(gap)
    ensures Parse(gap + s) == Parse(s)
  {
    hide First;
    if gap == "" {
      assert gap + s == s;
    } else {
      ParseBlank(gap[1..], s);
      assert (gap + s)[1..] == gap[1..] + s;
    }
  }

  lemma PieceReads(p: Piece, rest: string)
    requires Formed(p, rest == "") && Apart(p, rest)
    ensures Parse(PieceText(p) + rest) == [Meaning(p)] + Parse(rest)
  {
    hide *;
    var text, end := ShapeText(p.shape), p.gap + rest;
    var after := Comma(p.comma) + end;
    FormedFits(p, rest);
    ShapeReads(p.shape, after);
    NameEnds(p.name, p.shape, after);
    PieceStarts(p, after);
    MeaningIs(p);
    Associate(p, text, rest);
    FirstPiece(p.name, text + after, |text|);
    Behind(text, p.comma, end);
    ParseBlank(p.gap, rest);
  }

  lemma MeaningIs(p: Piece)
    ensures Meaning(p) == HttpAttribute(p.name, ShapeValue(p.shape))
  {
  }

  lemma FormedFits(p: Piece, rest: string)
    requires Formed(p, rest == "") && Apart(p, rest)
    ensures var end := p.gap + rest;
      && IsName(p.name) && Blank(p.gap)
      && Fits(p.shape, Comma(p.comma) + end) && (p.shape.Lone? ==> p.name != "")
      && (p.comma || end == "" || end[0] != ',')
  {
    hide Quotable, IsName;
    var end := p.gap + rest;
    assert p.gap != "" ==> IsSpace(end[0]);
    assert p.gap == "" ==> end == rest;
    assert !p.comma ==> Comma(p.comma) + end == end;
  }

  /** Taking the comma off what follows `text`. */
  lemma Behind(text: string, comma: bool, end: string)
    requires comma || end == "" || end[0] != ','
    ensures var v, n := text + (Comma(comma) + end), |text|;
      n <= |v| && (if n < |v| && v[n] == ',' then v[n + 1..] else v[n..]) == end
  {
    var after := Comma(comma) + end;
    TailOf(text, after, 0);
    if comma { TailOf(text, after, 1); }
  }

  lemma PieceStarts(p: Piece, after: string)
    requires IsName(p.name) && (p.shape.Lone? ==> p.name != "")
    ensures var s := p.name + (ShapeText(p.shape) + after); s != "" && !IsSpace(s[0])
  {
    hide Raw;
    if p.name == "" { assert ShapeText(p.shape)[0] == '='; }
  }

  lemma Associate(p: Piece, shape: string, rest: string)
    requires shape == ShapeText(p.shape)
    ensures PieceText(p) + rest == p.name + (shape + (Comma(p.comma) + (p.gap + rest)))
  {
    hide ShapeText;
  }

  lemma {:induction false} PrintMeans(lead: string, ps: seq<Piece>)
    requires Blank(lead) && Good(ps)
    ensures Parse(lead + Print(ps)) == Meanings(ps)
    decreases |ps|
  {
    hide Parse, PieceText, Formed;
    ParseBlank(lead, Print(ps));
    if ps == [] {
      ParseNothing();
    } else {
      var more := ps[1..];
      PrintMeans("", more);
      assert "" + Print(more) == Print(more);
      Visible(more);
      PieceReads(ps[0], Print(more));
      assert Meanings(ps) == [Meaning(ps[0])] + Meanings(more);
    }
  }

  lemma Visible(ps: seq<Piece>)
    requires Good(ps)
    ensures Print(ps) == "" <==> ps == []
    ensures ps != [] ==> !IsSpace(Print(ps)[0])
  {
    if ps != [] {
      var p := ps[0];
      PieceStarts(p, Comma(p.comma) + p.gap);
      hide PieceText;
      assert PieceText(p) == p.name + (ShapeText(p.shape) + (Comma(p.comma) + p.gap)) by { Associate(p, ShapeText(p.shape), ""); assert PieceText(p) + "" == PieceText(p) && p.gap + "" == p.gap; }
    }
  }

  // ---------------------------------------------------------------------------
  // Every text is such a text
  // ---------------------------------------------------------------------------

  /** Behind an opening quote. */
  lemma {:induction false} Tokens(s: string) returns (tokens: seq<Token>, end: string, rest: string)
    ensures Quotable(tokens) && s == Raw(tokens) + end + rest
    ensures end == ['"'] || (rest == "" && (end == "" || end == ['\\']))
    decreases |s|
  {
    if s == "" || s[0] == '"' || s == ['\\'] {
      tokens, end := [], if s == "" then "" else [s[0]];
      rest := if s == "" then "" else s[1..];
      assert s == end + rest;
    } else {
      var t := if s[0] == '\\' then Token(true, s[1]) else Token(false, s[0]);
      var n := |TokenText(t)|;
      var more;
      more, end, rest := Tokens(s[n..]);
      tokens := [t] + more;
      TokenFirst(t, more);
      assert s[..n] == TokenText(t);
      hide Raw;
      Prepended(s, n, TokenText(t), Raw(more), end, rest);
    }
  }

  lemma Prepended(s: string, n: nat, first: string, raw: string, end: string, rest: string)
    requires n <= |s| && s[..n] == first && s[n..] == raw + end + rest
    ensures s == first + raw + end + rest
  {
    assert s == s[..n] + s[n..];
  }

  lemma TokenFirst(t: Token, more: seq<Token>)
    ensures Raw([t] + more) == TokenText(t) + Raw(more)
  {
    assert ([t] + more)[1..] == more;
  }

  /** The shape behind a name. */
  lemma ShapeOf(v: string) returns (f: Shape, after: string)
    requires EndsName(v)
    ensures v == ShapeText(f) + after && Fits(f, after)
  {
    if v == "" || IsSpace(v[0]) {
      f, after := Lone, v;
    } else if v[1] == '"' {
      f, after := QuotedShape(v);
    } else {
      f, after := BareShape(v[1..]);
      assert v == ['='] + v[1..];
    }
  }

  lemma BareShape(s: string) returns (f: Shape, after: string)
    requires s != "" && !IsSpace(s[0]) && s[0] != '=' && s[0] != '"'
    ensures ['='] + s == ShapeText(f) + after && Fits(f, after)
  {
    var n := BareLength(s);
    BareStops(s);
    hide BareLength;
    var v := s[..n];
    f, after := Unquoted(v), s[n..];
    assert s == v + after;
    assert n < |s| ==> after[0] == s[n];
    assert v != "" ==> v[0] == s[0];
  }

  lemma QuotedShape(v: string) returns (f: Shape, after: string)
    requires |v| > 1 && v[0] == '=' && v[1] == '"'
    ensures v == ShapeText(f) + after && Fits(f, after)
  {
    hide Raw, Quotable;
    var tokens, end;
    tokens, end, after := Tokens(v[2..]);
    f := if end == ['"'] then Closed(tokens) else Open(tokens, end != "");
    Framed(v, Raw(tokens), end, after);
  }

  lemma Framed(v: string, raw: string, end: string, after: string)
    requires |v| > 1 && v[0] == '=' && v[1] == '"' && v[2..] == raw + end + after
    ensures v == ['=', '"'] + raw + end + after
  {
    Prepended(v, 2, ['=', '"'], raw, end, after);
  }

  lemma {:induction false} BareStops(s: string)
    ensures var n := BareLength(s);
      && n <= |s| && (forall i :: 0 <= i < n ==> !IsSpace(s[i]) && s[i] != ',')
      && (n < |s| ==> IsSpace(s[n]) || s[n] == ',')
  {
    if s != "" && !IsSpace(s[0]) && s[0] != ',' {
      BareStops(s[1..]);
      assert forall i :: 0 < i < |s| ==> s[i] == s[1..][i - 1];
    }
  }

  lemma {:induction false} Skipped(s: string) returns (lead: string)
    ensures s == lead + SkipSpaces(s) && Blank(lead) && (s != "" && IsSpace(s[0]) ==> lead != "")
  {
    if s != "" && IsSpace(s[0]) {
      var more := Skipped(s[1..]);
      lead := [s[0]] + more;
    } else {
      lead := "";
    }
  }

  lemma {:induction false} Readable(s: string) returns (lead: string, ps: seq<Piece>)
    ensures s == lead + Print(ps) && Blank(lead) && Good(ps)
    ensures s != "" && IsSpace(s[0]) ==> lead != ""
    decreases |s|
  {
    hide NameLength, ShapeText, PieceText, IsName;
    lead := Skipped(s);
    var t := SkipSpaces(s);
    if t == "" {
      ps := [];
    } else {
      var p, rest := PieceOf(t);
      var gap, more := Readable(rest);
      var q := p.(gap := gap);
      ps := [q] + more;
      assert ps[1..] == more;
      Visible(more);
      Follows(p, rest, gap, Print(more));
      Sits(p, rest, gap, |ps| == 1);
    }
  }

  /** The first piece, its gap left out. */
  lemma PieceOf(t: string) returns (p: Piece, rest: string)
    requires t != "" && !IsSpace(t[0])
    ensures p.gap == "" && t == PieceText(p) + rest && |rest| < |t|
    ensures IsName(p.name) && Fits(p.shape, Comma(p.comma) + rest) && (p.shape.Lone? ==> p.name != "" && !p.comma)
    ensures p.comma || rest == "" || rest[0] != ','
  {
    var n := NameLength(t);
    NameIsName(t);
    NameFits(t);
    assert EndsName(t[n..]);
    hide NameLength, ShapeText, IsName;
    var f, after := ShapeOf(t[n..]);
    var comma := after != "" && after[0] == ',';
    rest := if comma then after[1..] else after;
    p := Piece(t[..n], f, comma, "");
    assert after == Comma(comma) + rest;
    Parts(t, n, p, rest);
    NotBehind(t, n, f, after);
  }

  lemma Parts(t: string, n: nat, p: Piece, rest: string)
    requires n <= |t| && p.name == t[..n] && p.gap == "" && t[n..] == ShapeText(p.shape) + (Comma(p.comma) + rest)
    ensures t == PieceText(p) + rest
  {
    Associate(p, ShapeText(p.shape), rest);
    hide ShapeText, PieceText;
    assert "" + rest == rest;
    assert t == t[..n] + t[n..];
  }

  lemma NotBehind(t: string, n: nat, f: Shape, after: string)
    requires n <= |t| && t != "" && !IsSpace(t[0]) && t[n..] == ShapeText(f) + after && Fits(f, after)
    ensures f.Lone? ==> n > 0 && (after != "" ==> after[0] != ',')
    ensures |after| < |t|
  {
    hide Raw, Quotable;
    assert n == 0 ==> t[n..] == t;
    assert f.Lone? ==> t[n..] == after;
  }

  /** The gap behind it makes it a piece. */
  lemma Sits(p: Piece, rest: string, gap: string, last: bool)
    requires IsName(p.name) && Blank(gap) && Fits(p.shape, Comma(p.comma) + rest)
    requires p.shape.Lone? ==> p.name != "" && !p.comma
    requires rest != "" && IsSpace(rest[0]) ==> gap != ""
    requires rest == "" ==> gap == "" && last
    requires p.comma || rest == "" || rest[0] != ','
    ensures Formed(p.(gap := gap), last)
  {
    hide IsName, Quotable;
    assert !p.comma ==> Comma(p.comma) + rest == rest;
  }

  /** With the gap that was found. */
  lemma Follows(p: Piece, rest: string, gap: string, more: string)
    requires p.gap == "" && rest == gap + more
    ensures PieceText(p) + rest == PieceText(p.(gap := gap)) + more
  {
    Associate(p, ShapeText(p.shape), rest);
    Associate(p.(gap := gap), ShapeText(p.shape), more);
    hide PieceText, ShapeText;
    assert "" + rest == rest;
  }

  /** Every text, and what its attributes are: `Parse` returns the meanings of a good list
      of pieces that the text consists of, and every text consists of one. */
  lemma ParseMeans(s: string, attributes: seq<HttpAttribute>)
    ensures Parse(s) == attributes <==>
      exists lead, ps :: s == lead + Print(ps) && Blank(lead) && Good(ps) && Meanings(ps) == attributes
  {
    hide Parse, Print, Good, Meanings;
    forall lead, ps | s == lead + Print(ps) && Blank(lead) && Good(ps)
      ensures Parse(s) == Meanings(ps)
    {
      PrintMeans(lead, ps);
    }
    var lead, ps := Readable(s);
  }
}
