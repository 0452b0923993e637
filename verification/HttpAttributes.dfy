/** Header attributes (base/httpcommon.cc): `HttpParseAttributes`, `quote`, and the header
    that the Digest scheme composes. The reference parser consumes its text from the
    front; the loops of the source are proved against it. */
module HttpAttributes {

  import opened Wrappers
  import opened HttpText

  datatype HttpAttribute = HttpAttribute(name: string, value: string)

  // ---------------------------------------------------------------------------
  // The reference parser
  // ---------------------------------------------------------------------------

  function SkipSpaces(s: string): (r: string)
    ensures |r| <= |s| && (r != "" ==> !IsSpace(r[0]))
  {
    if s != "" && IsSpace(s[0]) then SkipSpaces(s[1..]) else s
  }

  /** `IsEndOfAttributeName` at the front of what is left. An '=' that is followed by
      white space, by another '=' or by nothing belongs to the name. */
  predicate EndsName(s: string)
  {
    s == "" || IsSpace(s[0]) || (|s| > 1 && s[0] == '=' && !IsSpace(s[1]) && s[1] != '=')
  }

  function NameLength(s: string): (n: nat)
    ensures n <= |s| && EndsName(s[n..])
  {
    if EndsName(s) then assert s[0..] == s; 0
    else
      assert forall k: nat {:trigger s[1..][k..]} :: k < |s| ==> s[1..][k..] == s[1 + k..];
      1 + NameLength(s[1..])
  }

  /** A quoted value behind its opening quote, and how much text it takes. The closing
      quote may be missing, and a final backslash stands for itself. */
  function Unquote(s: string): (r: (string, nat))
    ensures r.1 <= |s|
  {
    if s == "" then ("", 0)
    else if s[0] == '"' then ("", 1)
    else
      var k := if s[0] == '\\' && |s| > 1 then 1 else 0;
      var rest := Unquote(s[k + 1..]);
      ([s[k]] + rest.0, k + 1 + rest.1)
  }

  function BareLength(s: string): (n: nat)
    ensures n <= |s|
  {
    if s == "" || IsSpace(s[0]) || s[0] == ',' then 0 else 1 + BareLength(s[1..])
  }

  /** The value, if any, behind the name, and how much text it takes. */
  function Value(s: string): (r: (string, nat))
    ensures r.1 <= |s| && (s != "" && s[0] == '=' ==> r.1 > 0)
  {
    if s == "" || s[0] != '=' then ("", 0)
    else if |s| > 1 && s[1] == '"' then
      var quoted := Unquote(s[2..]);
      (quoted.0, 2 + quoted.1)
    else
      (s[1..1 + BareLength(s[1..])], 1 + BareLength(s[1..]))
  }

  /** The first attribute and where the next one starts. */
  function First(s: string): (r: (HttpAttribute, nat))
    requires s != "" && !IsSpace(s[0])
    ensures 0 < r.1 <= |s|
  {
    var n := NameLength(s);
    var value := Value(s[n..]);
    var end := n + value.1;
    (HttpAttribute(s[..n], value.0), if end < |s| && s[end] == ',' then end + 1 else end)
  }

  function Parse(s: string): (r: seq<HttpAttribute>)
    decreases |s|
  {
    var t := SkipSpaces(s);
    if t == "" then [] else [First(t).0] + Parse(t[First(t).1..])
  }

  // ---------------------------------------------------------------------------
  // The loops
  // ---------------------------------------------------------------------------

  method IsEndOfAttributeName(pos: nat, data: string) returns (r: bool)
    requires pos <= |data|
    ensures r == EndsName(data[pos..])
  {
    r := if pos >= |data| then true
         else if IsSpace(data[pos]) then true
         else pos + 1 < |data| && data[pos] == '=' && !IsSpace(data[pos + 1]) && data[pos + 1] != '=';
  }

  method FindNameEnd(data: string, start: nat) returns (pos: nat)
    requires start <= |data|
    ensures start <= pos <= |data| && pos == start + NameLength(data[start..])
  {
    pos := start;
    var end := IsEndOfAttributeName(pos, data);
    while !end
      invariant start <= pos <= |data| && end == EndsName(data[pos..])
      invariant start + NameLength(data[start..]) == pos + NameLength(data[pos..])
      decreases |data| - pos, !end
    {
      assert data[pos..][1..] == data[pos + 1..];
      pos := pos + 1;
      end := IsEndOfAttributeName(pos, data);
    }
  }

  /** From the opening quote on. */
  method ReadQuoted(data: string, start: nat) returns (value: string, pos: nat)
    requires start < |data|
    ensures start < pos <= |data|
    ensures value == Unquote(data[start + 1..]).0 && pos == start + 1 + Unquote(data[start + 1..]).1
  {
    hide Unquote;
    value, pos := "", start + 1;
    while pos < |data|
      invariant start < pos <= |data|
      invariant Unquote(data[start + 1..]).0 == value + Unquote(data[pos..]).0
      invariant start + 1 + Unquote(data[start + 1..]).1 == pos + Unquote(data[pos..]).1
    {
      UnquoteAt(data, pos);
      if data[pos] == '"' {
        pos := pos + 1;
        return;
      }
      if data[pos] == '\\' && pos + 1 < |data| {
        pos := pos + 1;
      }
      value := value + [data[pos]];
      pos := pos + 1;
    }
    assert Unquote(data[pos..]) == ("", 0) by { UnquoteNothing(data[pos..]); }
  }

  lemma UnquoteNothing(s: string)
    requires |s| == 0
    ensures Unquote(s) == ("", 0)
  {
  }

  lemma UnquoteAt(data: string, pos: nat)
    requires pos < |data|
    ensures var k := if data[pos] == '\\' && pos + 1 < |data| then pos + 1 else pos;
      if data[pos] == '"' then Unquote(data[pos..]) == ("", 1)
      else
        && Unquote(data[pos..]).0 == [data[k]] + Unquote(data[k + 1..]).0
        && pos + Unquote(data[pos..]).1 == k + 1 + Unquote(data[k + 1..]).1
  {
    var s := data[pos..];
    assert s[1..] == data[pos + 1..];
    assert |s| > 1 ==> s[2..] == data[pos + 2..];
  }

  method ReadBare(data: string, start: nat) returns (value: string, pos: nat)
    requires start <= |data|
    ensures pos == start + BareLength(data[start..]) && value == data[start..pos]
  {
    value, pos := "", start;
    while pos < |data| && !IsSpace(data[pos]) && data[pos] != ','
      invariant start <= pos <= |data| && value == data[start..pos]
      invariant start + BareLength(data[start..]) == pos + BareLength(data[pos..])
    {
      assert data[pos..][1..] == data[pos + 1..];
      value := value + [data[pos]];
      pos := pos + 1;
    }
  }

  method ReadValue(data: string, start: nat) returns (value: string, pos: nat)
    requires start <= |data|
    ensures start <= pos <= |data|
    ensures value == Value(data[start..]).0 && pos == start + Value(data[start..]).1
  {
    value, pos := "", start;
    if pos < |data| && data[pos] == '=' {
      pos := pos + 1;
      if pos < |data| && data[pos] == '"' {
        value, pos := ReadQuoted(data, pos);
        assert data[start..][2..] == data[start + 2..];
      } else {
        value, pos := ReadBare(data, pos);
        assert data[start..][1..] == data[start + 1..];
      }
    }
  }

  method SkipLeading(data: string, start: nat) returns (pos: nat)
    requires start <= |data|
    ensures start <= pos <= |data| && data[pos..] == SkipSpaces(data[start..])
  {
    pos := start;
    while pos < |data| && IsSpace(data[pos])
      invariant start <= pos <= |data| && SkipSpaces(data[pos..]) == SkipSpaces(data[start..])
    {
      assert data[pos..][1..] == data[pos + 1..];
      pos := pos + 1;
    }
  }

  method ReadAttribute(data: string, start: nat) returns (attribute: HttpAttribute, pos: nat)
    requires start < |data| && !IsSpace(data[start])
    ensures start < pos <= |data|
    ensures attribute == First(data[start..]).0 && pos == start + First(data[start..]).1
  {
    hide First;
    pos := FindNameEnd(data, start);
    FirstAt(data, start, pos);
    var name := data[start..pos];
    var value;
    value, pos := ReadValue(data, pos);
    attribute := HttpAttribute(name, value);
    if pos < |data| && data[pos] == ',' {
      pos := pos + 1;
    }
  }

  lemma FirstAt(data: string, start: nat, pos: nat)
    requires start < |data| && !IsSpace(data[start]) && pos == start + NameLength(data[start..])
    ensures pos <= |data| && First(data[start..]).0 == HttpAttribute(data[start..pos], Value(data[pos..]).0)
    ensures var end := pos + Value(data[pos..]).1;
      end <= |data| && start + First(data[start..]).1 == if end < |data| && data[end] == ',' then end + 1 else end
  {
    var s, n, w := data[start..], pos - start, data[pos..];
    NameFits(s);
    ValueFits(w);
    hide First, NameLength, Value;
    assert s[n..] == w;
    assert s[..n] == data[start..pos];
    FirstIs(s, n, w);
  }

  /** The first attribute from its name's length and what follows the name. */
  lemma FirstIs(s: string, n: nat, w: string)
    requires s != "" && !IsSpace(s[0]) && n == NameLength(s) <= |s| && w == s[n..]
    ensures First(s).0 == HttpAttribute(s[..n], Value(w).0)
    ensures var k := Value(w).1; First(s).1 == n + if k < |w| && w[k] == ',' then k + 1 else k
  {
    hide NameLength, Value;
  }

  lemma NameFits(s: string)
    ensures NameLength(s) <= |s|
  {
  }

  lemma ValueFits(s: string)
    ensures Value(s).1 <= |s|
  {
  }

  /** The loops compute the reference, on every input, and end. */
  method HttpParseAttributes(data: string) returns (attributes: seq<HttpAttribute>)
    ensures attributes == Parse(data)
  {
    hide First;
    attributes := [];
    var pos := 0;
    assert data[0..] == data;
    while true
      invariant pos <= |data| && Parse(data) == attributes + Parse(data[pos..])
      decreases |data| - pos
    {
      ghost var was := data[pos..];
      pos := SkipLeading(data, pos);
      if pos >= |data| {
        return;
      }
      ghost var t := data[pos..];
      var attribute;
      attribute, pos := ReadAttribute(data, pos);
      assert t[|t| - (|data| - pos)..] == data[pos..];
      assert Parse(was) == [attribute] + Parse(data[pos..]);
      attributes := attributes + [attribute];
    }
  }

  // ---------------------------------------------------------------------------
  // Printing
  // ---------------------------------------------------------------------------

  function Escape(s: string): string
  {
    if s == "" then "" else (if s[0] == '"' || s[0] == '\\' then ['\\', s[0]] else [s[0]]) + Escape(s[1..])
  }

  function Quoted(s: string): string { ['"'] + Escape(s) + ['"'] }

  method Quote(str: string) returns (result: string)
    ensures result == Quoted(str)
  {
    result := ['"'];
    for i := 0 to |str|
      invariant result + Escape(str[i..]) == ['"'] + Escape(str)
    {
      assert str[i..][1..] == str[i + 1..];
      ghost var was := result;
      if str[i] == '"' || str[i] == '\\' {
        result := result + ['\\'];
      }
      result := result + [str[i]];
      assert was + Escape(str[i..]) == result + Escape(str[i + 1..]);
    }
    assert result + Escape(str[|str|..]) == result;
    result := result + ['"'];
  }

  /** A value takes one of two forms. */
  datatype Form = Quotes | Bare

  datatype Item = Item(name: string, value: string, form: Form)

  function ValueText(item: Item): string
  {
    match item.form
    case Quotes => Quoted(item.value)
    case Bare => item.value
  }

  /** "name=value". */
  function Text(item: Item): string { item.name + ['='] + ValueText(item) }

  /** Items separated by a comma and a blank. */
  function List(items: seq<Item>): string
  {
    if items == [] then ""
    else if |items| == 1 then Text(items[0])
    else Text(items[0]) + [',', ' '] + List(items[1..])
  }

  function Attributes(items: seq<Item>): (r: seq<HttpAttribute>)
    ensures |r| == |items| && forall i :: 0 <= i < |r| ==> r[i] == HttpAttribute(items[i].name, items[i].value)
  {
    seq(|items|, i requires 0 <= i < |items| => HttpAttribute(items[i].name, items[i].value))
  }

  /** A name in which no character ends it: no white space, and '=' only in its tail. */
  predicate IsName(s: string)
  {
    && (forall i :: 0 <= i < |s| ==> !IsSpace(s[i]))
    && (forall i :: 0 < i < |s| && s[i - 1] == '=' ==> s[i] == '=')
  }

  /** What a value must be to stand without quotes. */
  predicate StandsBare(s: string)
  {
    && s != "" && s[0] != '=' && s[0] != '"'
    && forall i :: 0 <= i < |s| ==> !IsSpace(s[i]) && s[i] != ','
  }

  predicate Printable(item: Item)
  {
    IsName(item.name) && (item.form == Bare ==> StandsBare(item.value))
  }

  // ---------------------------------------------------------------------------
  // Parsing inverts printing
  // ---------------------------------------------------------------------------

  /** A quoted string reads back whatever it holds, and not one character further. */
  lemma {:induction false} UnquoteEscape(s: string, rest: string)
    ensures Unquote(Escape(s) + ['"'] + rest) == (s, |Escape(s)| + 1)
  {
    var t := Escape(s) + ['"'] + rest;
    if s != "" {
      UnquoteEscape(s[1..], rest);
      var tail := Escape(s[1..]) + ['"'] + rest;
      if s[0] == '"' || s[0] == '\\' {
        assert t == ['\\', s[0]] + tail;
        assert t[2..] == tail;
      } else {
        assert t == [s[0]] + tail;
        assert t[1..] == tail;
      }
      assert s == [s[0]] + s[1..];
    }
  }

  lemma {:induction false} BareReads(s: string, rest: string)
    requires forall i :: 0 <= i < |s| ==> !IsSpace(s[i]) && s[i] != ','
    requires rest != "" ==> IsSpace(rest[0]) || rest[0] == ','
    ensures BareLength(s + rest) == |s|
  {
    if s == "" {
      assert s + rest == rest;
    } else {
      BareReads(s[1..], rest);
      assert (s + rest)[1..] == s[1..] + rest;
    }
  }

  /** A name is read up to its '=', if a value follows that could end a name. */
  lemma {:induction false} NameReads(s: string, rest: string)
    requires IsName(s) && |rest| > 1 && rest[0] == '=' && !IsSpace(rest[1]) && rest[1] != '='
    ensures NameLength(s + rest) == |s|
  {
    if s == "" {
      assert s + rest == rest;
    } else {
      NameReads(s[1..], rest);
      assert (s + rest)[1..] == s[1..] + rest;
    }
  }

  lemma {:induction false} LoneNameReads(s: string, rest: string)
    requires IsName(s) && (rest != "" ==> IsSpace(rest[0]))
    ensures NameLength(s + rest) == |s|
  {
    if s == "" {
      assert s + rest == rest;
    } else {
      LoneNameReads(s[1..], rest);
      assert (s + rest)[1..] == s[1..] + rest;
    }
  }

  lemma QuotedReads(v: string, rest: string)
    ensures Value(['='] + Quoted(v) + rest) == (v, 1 + |Quoted(v)|)
  {
    var s := ['='] + Quoted(v) + rest;
    UnquoteEscape(v, rest);
    hide Unquote, Escape;
    assert s[2..] == Escape(v) + ['"'] + rest;
  }

  lemma BareValueReads(v: string, rest: string)
    requires StandsBare(v) && (rest != "" ==> IsSpace(rest[0]) || rest[0] == ',')
    ensures Value(['='] + v + rest) == (v, 1 + |v|)
  {
    var s := ['='] + v + rest;
    BareReads(v, rest);
    assert s[1..] == v + rest;
    assert s[1..1 + |v|] == v;
  }

  lemma ValueReads(item: Item, rest: string)
    requires Printable(item) && (rest != "" ==> IsSpace(rest[0]) || rest[0] == ',')
    ensures Value(['='] + ValueText(item) + rest) == (item.value, 1 + |ValueText(item)|)
  {
    if item.form == Quotes {
      QuotedReads(item.value, rest);
    } else {
      BareValueReads(item.value, rest);
    }
  }

  /** What follows an item: nothing, or a comma and a blank before more. */
  predicate Separated(rest: string) { rest == "" || (|rest| > 1 && rest[0] == ',' && rest[1] == ' ') }

  lemma ValueStarts(item: Item)
    requires Printable(item)
    ensures var v := ValueText(item); v != "" && !IsSpace(v[0]) && v[0] != '='
    ensures IsName(item.name) && (item.name != "" ==> !IsSpace(item.name[0]))
  {
  }

  lemma FirstReads(item: Item, rest: string)
    requires Printable(item) && Separated(rest)
    ensures var s := Text(item) + rest;
      && s != "" && !IsSpace(s[0])
      && First(s).0 == HttpAttribute(item.name, item.value)
      && s[First(s).1..] == if rest == "" then "" else rest[1..]
  {
    ValueReads(item, rest);
    ValueStarts(item);
    var t := ValueText(item);
    hide ValueText, Value, First, NameLength, IsName, Printable;
    Regroup(item.name, ['='], t, rest);
    FirstOf(item.name, t, rest, item.value);
  }

  lemma Regroup(a: string, b: string, c: string, d: string)
    ensures a + b + c + d == a + (b + c + d)
  {
  }

  lemma FirstOf(name: string, t: string, rest: string, value: string)
    requires IsName(name) && Separated(rest) && t != "" && !IsSpace(t[0]) && t[0] != '='
    requires name != "" ==> !IsSpace(name[0])
    requires Value(['='] + t + rest) == (value, 1 + |t|)
    ensures var s := name + (['='] + t + rest);
      && s != "" && !IsSpace(s[0])
      && First(s).0 == HttpAttribute(name, value)
      && s[First(s).1..] == if rest == "" then "" else rest[1..]
  {
    hide Value, First, NameLength, IsName;
    var lead := ['='] + t;
    var v := lead + rest;
    assert v[0] == '=' && v[1] == t[0];
    NameReads(name, v);
    FirstSplits(name, v, |lead|);
    TailOf(lead, rest, 0);
    if rest != "" {
      TailOf(lead, rest, 1);
    }
  }

  lemma FirstSplits(name: string, v: string, n: nat)
    requires |v| > 0 && (if name == "" then !IsSpace(v[0]) else !IsSpace(name[0]))
    requires NameLength(name + v) == |name| && Value(v).1 == n
    ensures First(name + v).0 == HttpAttribute(name, Value(v).0)
    ensures (name + v)[First(name + v).1..] == if n < |v| && v[n] == ',' then v[n + 1..] else v[n..]
  {
    ValueFits(v);
    hide First, NameLength, Value;
    var s, k := name + v, |name|;
    assert s[..k] == name;
    assert s[k..] == v;
    FirstIs(s, k, v);
    TailOf(name, v, First(s).1 - k);
  }

  lemma TailOf(a: string, b: string, k: nat)
    requires k <= |b|
    ensures (a + b)[|a| + k..] == b[k..]
  {
  }

  lemma ParseSplits(s: string)
    requires s != "" && !IsSpace(s[0])
    ensures Parse(s) == [First(s).0] + Parse(s[First(s).1..])
    ensures Parse([' '] + s) == Parse(s)
  {
    hide First;
    assert ([' '] + s)[1..] == s;
    assert SkipSpaces(s) == s;
    assert SkipSpaces([' '] + s) == s;
  }

  function Read(item: Item): HttpAttribute { HttpAttribute(item.name, item.value) }

  lemma LastReads(item: Item)
    requires Printable(item)
    ensures Parse(Text(item)) == [Read(item)] && Parse([' '] + Text(item)) == [Read(item)]
  {
    FirstReads(item, "");
    hide Text, First;
    assert Text(item) + "" == Text(item);
    ParseSplits(Text(item));
    assert Parse("") == [];
  }

  lemma NextReads(item: Item, more: string)
    requires Printable(item)
    ensures var s := Text(item) + ([',', ' '] + more);
      && Parse(s) == [Read(item)] + Parse([' '] + more)
      && Parse([' '] + s) == [Read(item)] + Parse([' '] + more)
  {
    var rest := [',', ' '] + more;
    FirstReads(item, rest);
    hide Text, First, Parse;
    assert rest[1..] == [' '] + more;
    ParseSplits(Text(item) + rest);
  }

  /** Every list of printable items reads back in order, whatever the values hold. */
  lemma {:induction false} ListReads(items: seq<Item>)
    requires AllPrintable(items)
    ensures Parse(List(items)) == Attributes(items)
    ensures items != [] ==> Parse([' '] + List(items)) == Attributes(items)
  {
    hide Text, Parse, Printable;
    if |items| == 0 {
      assert Parse("") == [] by { ParseNothing(); }
    } else if |items| == 1 {
      LastReads(items[0]);
    } else {
      ListReads(items[1..]);
      var more := List(items[1..]);
      assert List(items) == Text(items[0]) + ([',', ' '] + more);
      NextReads(items[0], more);
    }
  }

  lemma ParseNothing()
    ensures Parse("") == []
  {
  }

  // ---------------------------------------------------------------------------
  // What the parser can return at all
  // ---------------------------------------------------------------------------

  predicate Named(attributes: seq<HttpAttribute>)
  {
    forall i :: 0 <= i < |attributes| ==> IsName(attributes[i].name)
  }

  /** The same attributes, every value in quotes. */
  function Canonical(attributes: seq<HttpAttribute>): string
  {
    List(seq(|attributes|, i requires 0 <= i < |attributes| =>
      Item(attributes[i].name, attributes[i].value, Quotes)))
  }

  lemma {:induction false} NameIsName(s: string)
    ensures IsName(s[..NameLength(s)])
  {
    if !EndsName(s) {
      NameIsName(s[1..]);
      var n, m := s[..NameLength(s)], s[1..][..NameLength(s[1..])];
      assert n == [s[0]] + m;
      forall i | 0 < i < |n| && n[i - 1] == '='
        ensures n[i] == '='
      {
        if i == 1 {
          assert !IsSpace(m[0]);
        } else {
          assert n[i - 1] == m[i - 2] && n[i] == m[i - 1];
        }
      }
    }
  }

  lemma {:induction false} ParseNames(s: string)
    ensures Named(Parse(s))
    decreases |s|
  {
    var t := SkipSpaces(s);
    if t != "" {
      ParseNames(t[First(t).1..]);
      NameIsName(t);
      hide NameLength, Value, SkipSpaces, IsName;
    }
  }

  /** The parser returns exactly the lists whose names are names: each of those is
      printed by `Canonical` and read back, and no text yields any other. */
  lemma CanonicalReadsIff(attributes: seq<HttpAttribute>)
    ensures Parse(Canonical(attributes)) == attributes <==> Named(attributes)
  {
    if Named(attributes) {
      var items := seq(|attributes|, i requires 0 <= i < |attributes| =>
        Item(attributes[i].name, attributes[i].value, Quotes));
      hide IsName, Parse, List;
      forall i | 0 <= i < |items|
        ensures Printable(items[i])
      {
        assert IsName(attributes[i].name);
      }
      ListReads(items);
      assert Attributes(items) == attributes;
    } else {
      ParseNames(Canonical(attributes));
    }
  }

  /** Printing what was parsed and parsing again changes nothing, on every text. */
  lemma ParseStable(s: string)
    ensures Parse(Canonical(Parse(s))) == Parse(s)
  {
    ParseNames(s);
    CanonicalReadsIff(Parse(s));
  }

  // ---------------------------------------------------------------------------
  // The Digest header
  // ---------------------------------------------------------------------------

  /** A scheme name, a blank and a list. */
  function Header(scheme: string, items: seq<Item>): string { scheme + [' '] + List(items) }

  lemma {:induction false} ListGrows(items: seq<Item>, item: Item)
    requires items != []
    ensures List(items + [item]) == List(items) + [',', ' '] + Text(item)
  {
    hide Text;
    if |items| == 1 {
      assert (items + [item])[1..] == [item];
    } else {
      ListGrows(items[1..], item);
      assert (items + [item])[1..] == items[1..] + [item];
      assert (items + [item])[0] == items[0];
    }
  }

  lemma SchemeReads(scheme: string, rest: string)
    requires IsName(scheme) && scheme != ""
    ensures Parse(scheme + ([' '] + rest)) == [HttpAttribute(scheme, "")] + Parse([' '] + rest)
  {
    var v := [' '] + rest;
    LoneNameReads(scheme, v);
    hide NameLength;
    assert !IsSpace(scheme[0]);
    FirstSplits(scheme, v, 0);
    hide First, Parse;
    assert v[0..] == v;
    ParseSplits(scheme + v);
  }

  lemma HeaderReads(scheme: string, items: seq<Item>)
    requires IsName(scheme) && scheme != "" && items != [] && AllPrintable(items)
    ensures Parse(Header(scheme, items)) == [HttpAttribute(scheme, "")] + Attributes(items)
  {
    hide Parse, List;
    SchemeReads(scheme, List(items));
    ListReads(items);
    assert Header(scheme, items) == scheme + ([' '] + List(items));
  }

  /** The values of one answer; `cnonce` is there when the challenge asked for a qop. */
  datatype Digest = Digest(
    username: string, realm: string, nonce: string, uri: string,
    cnonce: Option<string>, response: string, opaq: Option<string>)

  function Identity(d: Digest): seq<Item>
  {
    [Item("username", d.username, Quotes), Item("realm", d.realm, Quotes),
     Item("nonce", d.nonce, Quotes), Item("uri", d.uri, Quotes)]
  }

  function Protection(d: Digest): seq<Item>
  {
    match d.cnonce
    case None => []
    case Some(c) => [Item("qop", "auth", Bare), Item("nc", "00000001", Bare), Item("cnonce", c, Quotes)]
  }

  function Proof(d: Digest): seq<Item>
  {
    [Item("response", d.response, Quotes)]
    + match d.opaq case None => [] case Some(o) => [Item("opaque", o, Quotes)]
  }

  function DigestItems(d: Digest): seq<Item> { Identity(d) + Protection(d) + Proof(d) }

  predicate AllPrintable(items: seq<Item>) { forall i :: 0 <= i < |items| ==> Printable(items[i]) }

  lemma IdentityPrintable(d: Digest)
    ensures AllPrintable(Identity(d))
  {
  }

  lemma ProtectionPrintable(d: Digest)
    ensures AllPrintable(Protection(d))
  {
    FixedPrintable();
  }

  lemma FixedPrintable()
    ensures Printable(Item("qop", "auth", Bare)) && Printable(Item("nc", "00000001", Bare))
  {
  }

  lemma ProofPrintable(d: Digest)
    ensures AllPrintable(Proof(d))
  {
  }

  lemma DigestPrintable(d: Digest)
    ensures AllPrintable(DigestItems(d))
  {
    IdentityPrintable(d);
    ProtectionPrintable(d);
    ProofPrintable(d);
    hide Identity, Protection, Proof, Printable;
  }

  predicate Plain(s: string) { Lacks(s, '"') && Lacks(s, '\\') }

  /** The response is put between quotes as it stands, which quotes it if and only if it
      holds neither quote nor backslash, as hexadecimal digits do. */
  lemma {:induction false} QuotedPlainIff(s: string)
    ensures |Escape(s)| >= |s|
    ensures Escape(s) == s <==> Plain(s)
    ensures ['"'] + s + ['"'] == Quoted(s) <==> Plain(s)
  {
    if s != "" {
      QuotedPlainIff(s[1..]);
      assert s == [s[0]] + s[1..];
      assert Plain(s) <==> s[0] != '"' && s[0] != '\\' && Plain(s[1..]) by { PlainSplits(s); }
      if s[0] == '"' || s[0] == '\\' {
        assert |Escape(s)| > |s|;
      } else {
        assert Escape(s) == [s[0]] + Escape(s[1..]);
        assert Escape(s)[1..] == Escape(s[1..]);
      }
    }
    assert (['"'] + s + ['"'])[1..|s| + 1] == s;
    assert Quoted(s)[1..|Escape(s)| + 1] == Escape(s);
  }

  lemma PlainSplits(s: string)
    requires s != ""
    ensures Plain(s) <==> s[0] != '"' && s[0] != '\\' && Plain(s[1..])
  {
    assert forall i :: 0 < i < |s| ==> s[i] == s[1..][i - 1];
  }

  lemma AppendItem(scheme: string, items: seq<Item>, item: Item, lead: string)
    requires items != [] && lead == [',', ' '] + item.name + ['=']
    ensures Header(scheme, items) + lead + ValueText(item) == Header(scheme, items + [item])
  {
    ListGrows(items, item);
    hide List, ValueText;
  }

  method AppendQuoted(ss: string, lead: string, value: string, ghost scheme: string, ghost items: seq<Item>, ghost name: string)
    returns (r: string)
    requires ss == Header(scheme, items) && items != [] && lead == [',', ' '] + name + ['=']
    ensures r == Header(scheme, items + [Item(name, value, Quotes)])
  {
    var q := Quote(value);
    r := ss + lead + q;
    AppendItem(scheme, items, Item(name, value, Quotes), lead);
  }

  method AppendBare(ss: string, lead: string, value: string, ghost scheme: string, ghost items: seq<Item>, ghost name: string)
    returns (r: string)
    requires ss == Header(scheme, items) && items != [] && lead == [',', ' '] + name + ['=']
    ensures r == Header(scheme, items + [Item(name, value, Bare)])
  {
    r := ss + lead + value;
    AppendItem(scheme, items, Item(name, value, Bare), lead);
  }

  method ComposeIdentity(scheme: string, d: Digest) returns (ss: string)
    ensures ss == Header(scheme, Identity(d))
  {
    hide Header;
    var all := Identity(d);
    var q := Quote(d.username);
    ss := scheme + " username=" + q;
    FirstItem(scheme, all[0], " username=");
    ss := AppendQuoted(ss, ", realm=", d.realm, scheme, [all[0]], "realm");
    ss := AppendQuoted(ss, ", nonce=", d.nonce, scheme, [all[0]] + [all[1]], "nonce");
    ss := AppendQuoted(ss, ", uri=", d.uri, scheme, [all[0]] + [all[1]] + [all[2]], "uri");
    assert [all[0]] + [all[1]] + [all[2]] + [all[3]] == all;
  }

  method ComposeProtection(ss: string, scheme: string, d: Digest) returns (r: string)
    requires ss == Header(scheme, Identity(d))
    ensures r == Header(scheme, Identity(d) + Protection(d))
  {
    hide Header, Identity;
    ghost var before := Identity(d);
    assert before != [] by { IdentityStarts(d); }
    r := ss;
    if d.cnonce.Some? {
      ghost var all := Protection(d);
      r := AppendBare(r, ", qop=", "auth", scheme, before, "qop");
      r := AppendBare(r, ", nc=", "00000001", scheme, before + [all[0]], "nc");
      r := AppendQuoted(r, ", cnonce=", d.cnonce.value, scheme, before + [all[0]] + [all[1]], "cnonce");
      assert before + [all[0]] + [all[1]] + [all[2]] == before + all;
    } else {
      assert before + [] == before;
    }
  }

  lemma IdentityStarts(d: Digest)
    ensures Identity(d) != []
  {
  }

  /** The header as the source streams it out. */
  method ComposeDigest(scheme: string, d: Digest) returns (ss: string)
    requires Plain(d.response)
    ensures ss == Header(scheme, DigestItems(d))
  {
    hide Header, Identity, Protection, Plain, Quoted;
    ss := ComposeIdentity(scheme, d);
    ss := ComposeProtection(ss, scheme, d);
    IdentityStarts(d);
    ghost var before, all := Identity(d) + Protection(d), Proof(d);
    QuotedPlainIff(d.response);
    AppendItem(scheme, before, all[0], ", response=");
    ss := ss + ", response=" + (['"'] + d.response + ['"']);
    if d.opaq.Some? {
      ss := AppendQuoted(ss, ", opaque=", d.opaq.value, scheme, before + [all[0]], "opaque");
      assert before + [all[0]] + [all[1]] == before + all;
    } else {
      assert [all[0]] == all;
    }
  }

  lemma FirstItem(scheme: string, item: Item, lead: string)
    requires lead == [' '] + item.name + ['=']
    ensures scheme + lead + ValueText(item) == Header(scheme, [item])
  {
    hide ValueText;
    assert List([item]) == Text(item);
  }

  /** Parsing inverts composing, with any quotes and backslashes in the values. */
  lemma DigestReads(scheme: string, d: Digest)
    requires IsName(scheme) && scheme != ""
    ensures Parse(Header(scheme, DigestItems(d))) == [HttpAttribute(scheme, "")] + Attributes(DigestItems(d))
  {
    DigestPrintable(d);
    hide Header, AllPrintable, IsName;
    HeaderReads(scheme, DigestItems(d));
  }

  // ---------------------------------------------------------------------------
  // Answering a challenge
  // ---------------------------------------------------------------------------

  /** The value of the first attribute of that name. */
  function Lookup(attributes: seq<HttpAttribute>, name: string): Option<string>
  {
    if attributes == [] then None
    else if attributes[0].name == name then Some(attributes[0].value)
    else Lookup(attributes[1..], name)
  }

  method HttpHasAttribute(attributes: seq<HttpAttribute>, name: string) returns (r: Option<string>)
    ensures r == Lookup(attributes, name)
  {
    assert attributes[0..] == attributes;
    for i := 0 to |attributes|
      invariant Lookup(attributes, name) == Lookup(attributes[i..], name)
    {
      if attributes[i].name == name {
        return Some(attributes[i].value);
      }
      assert attributes[i..][1..] == attributes[i + 1..];
    }
    return None;
  }

  function Or(v: Option<string>, other: string): string { if v.Some? then v.value else other }

  /** How a server checks an answer, from the attributes it reads and nothing else: the
      request digest of section 3.2.2.1 of RFC 2617, given the hash of the credentials for
      the realm. */
  predicate Accepted(answer: seq<HttpAttribute>, md5: string -> string, ha1: string -> string, verb: string)
  {
    var realm, nonce, uri :=
      Or(Lookup(answer, "realm"), ""), Or(Lookup(answer, "nonce"), ""), Or(Lookup(answer, "uri"), "");
    Lookup(answer, "response")
    == if Lookup(answer, "qop").None? then Some(md5(ha1(realm) + ":" + nonce + ":" + md5(verb + ":" + uri)))
       else Some(md5(ha1(realm) + ":" + nonce + ":" + Or(Lookup(answer, "nc"), "") + ":" + Or(Lookup(answer, "cnonce"), "")
                     + ":" + Lookup(answer, "qop").value + ":" + md5(verb + ":" + uri)))
  }

  lemma {:induction false} FoundAt(a: seq<HttpAttribute>, k: nat, name: string)
    requires k < |a| && a[k].name == name && forall i :: 0 <= i < k ==> a[i].name != name
    ensures Lookup(a, name) == Some(a[k].value)
  {
    if k > 0 {
      FoundAt(a[1..], k - 1, name);
    }
  }

  lemma {:induction false} NotFound(a: seq<HttpAttribute>, name: string)
    requires forall i :: 0 <= i < |a| ==> a[i].name != name
    ensures Lookup(a, name) == None
  {
    if a != [] {
      NotFound(a[1..], name);
    }
  }

  function Composed(scheme: string, d: Digest): seq<HttpAttribute>
  {
    [HttpAttribute(scheme, "")] + Attributes(DigestItems(d))
  }

  predicate IsDigest(scheme: string) { EqualIgnoringCase(scheme, "digest") }

  /** None of the names is the scheme's. */
  lemma DigestStarts(scheme: string)
    requires IsDigest(scheme)
    ensures |scheme| == 6 && (scheme[0] == 'd' || scheme[0] == 'D')
  {
    assert Lower(scheme[0]) == 'd';
  }

  lemma ComposedIdentity(scheme: string, d: Digest)
    ensures var a := Composed(scheme, d);
      && |a| >= 6 && a[0].name == scheme
      && a[1] == HttpAttribute("username", d.username) && a[2] == HttpAttribute("realm", d.realm)
      && a[3] == HttpAttribute("nonce", d.nonce) && a[4] == HttpAttribute("uri", d.uri)
      && (d.cnonce.Some? ==> |a| >= 9 && a[5] == HttpAttribute("qop", "auth") && a[6] == HttpAttribute("nc", "00000001")
                             && a[7] == HttpAttribute("cnonce", d.cnonce.value) && a[8] == HttpAttribute("response", d.response))
      && (d.cnonce.None? ==> a[5] == HttpAttribute("response", d.response))
  {
  }

  /** Each value is found under its name. */
  lemma ComposedFields(scheme: string, d: Digest)
    requires IsDigest(scheme)
    ensures var a := Composed(scheme, d);
      && Lookup(a, "username") == Some(d.username) && Lookup(a, "realm") == Some(d.realm)
      && Lookup(a, "nonce") == Some(d.nonce) && Lookup(a, "uri") == Some(d.uri)
  {
    DigestStarts(scheme);
    ComposedIdentity(scheme, d);
    hide IsDigest;
    var a := Composed(scheme, d);
    assert a[1..5] == Attributes(Identity(d));
    FoundAt(a, 1, "username");
    FoundAt(a, 2, "realm");
    FoundAt(a, 3, "nonce");
    FoundAt(a, 4, "uri");
  }

  lemma ComposedProof(scheme: string, d: Digest)
    requires IsDigest(scheme)
    ensures var a := Composed(scheme, d);
      Lookup(a, "response") == Some(d.response) && Lookup(a, "opaque") == d.opaq
  {
    DigestStarts(scheme);
    ComposedIdentity(scheme, d);
    hide IsDigest;
    var a := Composed(scheme, d);
    var n := |a| - |Proof(d)|;
    FoundAt(a, n, "response");
    if d.opaq.Some? {
      FoundAt(a, n + 1, "opaque");
    } else {
      NotFound(a, "opaque");
    }
  }

  lemma ComposedProtection(scheme: string, d: Digest)
    requires IsDigest(scheme)
    ensures var a := Composed(scheme, d);
      && Lookup(a, "qop") == (if d.cnonce.Some? then Some("auth") else None)
      && Lookup(a, "nc") == (if d.cnonce.Some? then Some("00000001") else None)
      && Lookup(a, "cnonce") == d.cnonce
  {
    if d.cnonce.Some? {
      Protected(scheme, d);
    } else {
      Unprotected(scheme, d);
    }
  }

  lemma Protected(scheme: string, d: Digest)
    requires IsDigest(scheme) && d.cnonce.Some?
    ensures var a := Composed(scheme, d);
      Lookup(a, "qop") == Some("auth") && Lookup(a, "nc") == Some("00000001") && Lookup(a, "cnonce") == d.cnonce
  {
    DigestStarts(scheme);
    ComposedIdentity(scheme, d);
    hide IsDigest;
    var a := Composed(scheme, d);
    FoundAt(a, 5, "qop");
    FoundAt(a, 6, "nc");
    FoundAt(a, 7, "cnonce");
  }

  lemma Unprotected(scheme: string, d: Digest)
    requires IsDigest(scheme) && d.cnonce.None?
    ensures var a := Composed(scheme, d);
      Lookup(a, "qop") == None && Lookup(a, "nc") == None && Lookup(a, "cnonce") == None
  {
    DigestStarts(scheme);
    ComposedIdentity(scheme, d);
    hide IsDigest;
    var a := Composed(scheme, d);
    NotFound(a, "qop");
    NotFound(a, "nc");
    NotFound(a, "cnonce");
  }

  lemma ComposedAccepted(scheme: string, d: Digest, md5: string -> string, ha1: string -> string, verb: string)
    requires IsDigest(scheme)
    requires d.response
          == if d.cnonce.None? then md5(ha1(d.realm) + ":" + d.nonce + ":" + md5(verb + ":" + d.uri))
             else md5(ha1(d.realm) + ":" + d.nonce + ":" + "00000001" + ":" + d.cnonce.value + ":" + "auth" + ":" + md5(verb + ":" + d.uri))
    ensures Accepted(Composed(scheme, d), md5, ha1, verb)
  {
    ComposedFields(scheme, d);
    ComposedProof(scheme, d);
    ComposedProtection(scheme, d);
    hide Composed, Lookup;
  }

  /** The example of section 3.5 of RFC 2617: what is hashed, to the letter. */
  lemma ExampleOfTheStandard(answer: seq<HttpAttribute>, md5: string -> string, ha1: string -> string)
    requires md5("GET:/dir/index.html") == "39aff3a2bab6126f332b942af96d3366"
    requires ha1("testrealm@host.com") == "939e7578ed9e3c518a452acee763bce9"
    requires Lookup(answer, "realm") == Some("testrealm@host.com") && Lookup(answer, "uri") == Some("/dir/index.html")
    requires Lookup(answer, "nonce") == Some("dcd98b7102dd2f0e8b11d0f600bfb0c093") && Lookup(answer, "qop") == Some("auth")
    requires Lookup(answer, "nc") == Some("00000001") && Lookup(answer, "cnonce") == Some("0a4f113b")
    ensures Accepted(answer, md5, ha1, "GET") <==>
      Lookup(answer, "response")
      == Some(md5("939e7578ed9e3c518a452acee763bce9:" + "dcd98b7102dd2f0e8b11d0f600bfb0c093:" + "00000001:" + "0a4f113b:"
                  + "auth:" + "39aff3a2bab6126f332b942af96d3366"))
  {
    hide Lookup;
    RequestLine();
    ExampleText();
  }

  lemma RequestLine()
    ensures "GET" + ":" + "/dir/index.html" == "GET:/dir/index.html"
  {
  }

  lemma ExampleText()
    ensures "939e7578ed9e3c518a452acee763bce9" + ":" + "dcd98b7102dd2f0e8b11d0f600bfb0c093" + ":" + "00000001" + ":" + "0a4f113b" + ":" + "auth" + ":" + "39aff3a2bab6126f332b942af96d3366"
         == "939e7578ed9e3c518a452acee763bce9:" + "dcd98b7102dd2f0e8b11d0f600bfb0c093:" + "00000001:" + "0a4f113b:" + "auth:" + "39aff3a2bab6126f332b942af96d3366"
  {
    Colons("939e7578ed9e3c518a452acee763bce9", "dcd98b7102dd2f0e8b11d0f600bfb0c093", "00000001", "0a4f113b", "auth", "39aff3a2bab6126f332b942af96d3366");
    assert "939e7578ed9e3c518a452acee763bce9" + ":" == "939e7578ed9e3c518a452acee763bce9:";
    assert "dcd98b7102dd2f0e8b11d0f600bfb0c093" + ":" == "dcd98b7102dd2f0e8b11d0f600bfb0c093:";
    assert "00000001" + ":" == "00000001:" && "0a4f113b" + ":" == "0a4f113b:" && "auth" + ":" == "auth:";
  }

  lemma Colons(a: string, b: string, c: string, d: string, e: string, f: string)
    ensures a + ":" + b + ":" + c + ":" + d + ":" + e + ":" + f
         == (a + ":") + (b + ":") + (c + ":") + (d + ":") + (e + ":") + f
  {
  }

  /** The source joins the middle part first. */
  lemma Joined(a: string, nonce: string, nc: string, cnonce: string, qop: string, b: string)
    ensures a + ":" + (nonce + ":" + nc + ":" + cnonce + ":" + qop) + ":" + b
         == a + ":" + nonce + ":" + nc + ":" + cnonce + ":" + qop + ":" + b
  {
  }

  /** The Digest branch of `HttpAuthenticate`. Its answer, read as attributes, echoes the
      challenge, names the user, and proves the password with the digest of the standard,
      so that it passes the server's check. */
  method AnswerDigest(challenge: string, verb: string, uri: string, username: string, cnonce: string,
                      md5: string -> string, ha1: string -> string)
    returns (scheme: string, answer: Option<string>)
    requires forall s :: Plain(md5(s))
    ensures answer.Some? <==> Parse(challenge) != [] && IsDigest(Parse(challenge)[0].name) && username != ""
    ensures answer.Some? ==>
      var asked, got := Parse(challenge), Parse(answer.value);
      var realm, nonce := Or(Lookup(asked, "realm"), ""), Or(Lookup(asked, "nonce"), "");
      && got != [] && got[0] == HttpAttribute(asked[0].name, "")
      && Lookup(got, "username") == Some(username) && Lookup(got, "uri") == Some(uri)
      && Lookup(got, "realm") == Some(realm) && Lookup(got, "nonce") == Some(nonce)
      && Lookup(got, "opaque") == Lookup(asked, "opaque")
      && (if Lookup(asked, "qop").None? then
            && Lookup(got, "qop") == None && Lookup(got, "nc") == None && Lookup(got, "cnonce") == None
            && Lookup(got, "response") == Some(md5(ha1(realm) + ":" + nonce + ":" + md5(verb + ":" + uri)))
          else
            && Lookup(got, "qop") == Some("auth") && Lookup(got, "nc") == Some("00000001") && Lookup(got, "cnonce") == Some(cnonce)
            && Lookup(got, "response")
               == Some(md5(ha1(realm) + ":" + nonce + ":" + "00000001" + ":" + cnonce + ":" + "auth" + ":" + md5(verb + ":" + uri))))
      && Accepted(got, md5, ha1, verb)
  {
    hide Parse, Accepted, Composed, IsDigest;
    var args := HttpParseAttributes(challenge);
    scheme, answer := "", None;
    if args != [] {
      scheme := args[0].name;
    }
    if !IsDigest(scheme) || username == "" {
      assert !IsDigest("") by { EmptyIsNotDigest(); }
      return;
    }
    assert args != [] by { if args == [] { EmptyIsNotDigest(); } }
    var realm := HttpHasAttribute(args, "realm");
    var nonce := HttpHasAttribute(args, "nonce");
    var qop := HttpHasAttribute(args, "qop");
    var opaq := HttpHasAttribute(args, "opaque");
    var r, n := Or(realm, ""), Or(nonce, "");
    var used, middle := None, n;
    if qop.Some? {
      used, middle := Some(cnonce), n + ":" + "00000001" + ":" + cnonce + ":" + "auth";
      Joined(ha1(r), n, "00000001", cnonce, "auth", md5(verb + ":" + uri));
    }
    var response := md5(ha1(r) + ":" + middle + ":" + md5(verb + ":" + uri));
    assert Plain(response);
    var d := Digest(username, r, n, uri, used, response, opaq);
    var text := ComposeDigest(scheme, d);
    answer := Some(text);
    ParseNames(challenge);
    AnswerReads(scheme, d, text);
    ComposedAccepted(scheme, d, md5, ha1, verb);
  }

  lemma EmptyIsNotDigest()
    ensures !IsDigest("")
  {
  }

  lemma AnswerReads(scheme: string, d: Digest, text: string)
    requires IsDigest(scheme) && IsName(scheme) && text == Header(scheme, DigestItems(d))
    ensures var got := Parse(text);
      && got == Composed(scheme, d) && got != [] && got[0] == HttpAttribute(scheme, "")
      && Lookup(got, "username") == Some(d.username) && Lookup(got, "realm") == Some(d.realm)
      && Lookup(got, "nonce") == Some(d.nonce) && Lookup(got, "uri") == Some(d.uri)
      && Lookup(got, "opaque") == d.opaq && Lookup(got, "response") == Some(d.response)
      && Lookup(got, "qop") == (if d.cnonce.Some? then Some("auth") else None)
      && Lookup(got, "nc") == (if d.cnonce.Some? then Some("00000001") else None)
      && Lookup(got, "cnonce") == d.cnonce
  {
    hide Parse, Header, Lookup;
    DigestReads(scheme, d);
    ComposedFields(scheme, d);
    ComposedProof(scheme, d);
    ComposedProtection(scheme, d);
  }
}
