/** The label-set parser of the network report, and the printer it reads back. */
module LabelParser {
  import opened Common
  import opened Labels

  const MAX_LABEL_VALUE_BYTES := 4096

  datatype ParseError = Invalid | Unclosed | OverCap

  predicate Blank(c: char) {
    c == ' ' || c == '\t'
  }

  predicate NameStart(c: char) {
    'A' <= c <= 'Z' || 'a' <= c <= 'z' || c == '_'
  }

  predicate NameCont(c: char) {
    NameStart(c) || '0' <= c <= '9'
  }

  function Utf8Length(s: string): nat {
    if s == [] then 0
    else
      var n := s[0] as int;
      (if n < 0x80 then 1 else if n < 0x800 then 2 else if n < 0x10000 then 3 else 4) + Utf8Length(s[1..])
  }

  /** Names start with an ASCII letter or an underscore and go on with those and digits. */
  lemma NameCharacters(c: char)
    ensures NameStart(c) <==> 65 <= c as int <= 90 || 97 <= c as int <= 122 || c as int == 95
    ensures NameCont(c) <==> NameStart(c) || 48 <= c as int <= 57
  {
  }

  // ----- UTF-8 -----

  /** The UTF-8 octets of a code point, after section 3 of RFC 3629. */
  function Octets(n: int): (b: seq<int>)
    requires 0 <= n < 0x110000
    ensures 1 <= |b| <= 4
  {
    if n < 0x80 then [n]
    else if n < 0x800 then [0xC0 + n / 64, 0x80 + n % 64]
    else if n < 0x10000 then [0xE0 + n / 64 / 64, 0x80 + n / 64 % 64, 0x80 + n % 64]
    else [0xF0 + n / 64 / 64 / 64, 0x80 + n / 64 / 64 % 64, 0x80 + n / 64 % 64, 0x80 + n % 64]
  }

  /** The code point octets stand for, the lead octet telling how many there are. */
  function CodePoint(b: seq<int>): Option<int> {
    if |b| == 1 && b[0] < 0x80 then Some(b[0])
    else if |b| == 2 && 0xC0 <= b[0] < 0xE0 then Some((b[0] - 0xC0) * 64 + b[1] - 0x80)
    else if |b| == 3 && 0xE0 <= b[0] < 0xF0 then Some(((b[0] - 0xE0) * 64 + b[1] - 0x80) * 64 + b[2] - 0x80)
    else if |b| == 4 && 0xF0 <= b[0] then
      Some((((b[0] - 0xF0) * 64 + b[1] - 0x80) * 64 + b[2] - 0x80) * 64 + b[3] - 0x80)
    else None
  }

  /** Every code point is read back from its octets, each of which is a byte. */
  lemma OctetsDecode(n: int)
    requires 0 <= n < 0x110000
    ensures CodePoint(Octets(n)) == Some(n)
    ensures forall i :: 0 <= i < |Octets(n)| ==> Octets(n)[i] < 256
  {
  }

  function Utf8(s: string): seq<int> {
    if s == [] then [] else Octets(s[0] as int) + Utf8(s[1..])
  }

  /** The length the cap is compared with is that of the encoding. */
  lemma {:induction false} Utf8LengthIs(s: string)
    ensures Utf8Length(s) == |Utf8(s)|
    decreases |s|
  {
    if s != [] { Utf8LengthIs(s[1..]); }
  }

  // ----- the grammar, on what is left of the text -----

  function SkipBlanks(s: string): (t: string)
    ensures |t| <= |s|
  {
    if s != [] && Blank(s[0]) then SkipBlanks(s[1..]) else s
  }

  function NameRun(s: string): (k: nat)
    ensures k <= |s|
  {
    if s != [] && NameCont(s[0]) then 1 + NameRun(s[1..]) else 0
  }

  /** How long the quoted value at the head of `s` is, if a closing quote ends it. */
  function ValueRun(s: string): (k: Option<nat>)
    ensures k.Some? ==> k.value < |s| && s[k.value] == '"'
  {
    if s == [] then None
    else if s[0] == '\\' then
      if |s| == 1 then None
      else match ValueRun(s[2..]) { case None => None case Some(k) => Some(k + 2) }
    else if s[0] == '"' then Some(0)
    else match ValueRun(s[1..]) { case None => None case Some(k) => Some(k + 1) }
  }

  type LabelSet = map<string, string>

  datatype Value = Value(encoded: string, rest: string)

  /** The quoted value after its opening quote. */
  function ReadValue(s: string): (r: Result<Value, ParseError>)
    ensures r.Ok? ==> |r.value.rest| < |s|
  {
    match ValueRun(s)
    case None => Err(Unclosed)
    case Some(k) =>
      if Utf8Length(s[..k]) > MAX_LABEL_VALUE_BYTES then Err(OverCap) else Ok(Value(s[..k], s[k + 1..]))
  }

  /** A label whose name starts `s`: its name, its encoded value, and what follows. */
  datatype Label = Label(name: string, encoded: string, rest: string)

  function Named(name: string, value: Result<Value, ParseError>): Result<Label, ParseError> {
    match value
    case Err(error) => Err(error)
    case Ok(v) => Ok(Label(name, v.encoded, v.rest))
  }

  function ReadLabel(s: string): (r: Result<Label, ParseError>)
    ensures r.Ok? ==> |r.value.rest| < |s|
  {
    if s == [] || !NameStart(s[0]) then Err(Invalid)
    else
      var e := 1 + NameRun(s[1..]);
      if e == |s| || s[e] != '=' then Err(Invalid)
      else if e + 1 == |s| || s[e + 1] != '"' then Err(Invalid)
      else
        Named(s[..e], ReadValue(s[e + 2..]))
  }

  /** The labels of `s` added to `labels`. */
  function Parse(s: string, labels: LabelSet): Result<LabelSet, ParseError>
    decreases |s|, 0
  {
    var t := SkipBlanks(s);
    if t == [] then Ok(labels)
    else
      match ReadLabel(t)
      case Err(e) => Err(e)
      case Ok(l) => AfterLabel(SkipBlanks(l.rest), labels[l.name := Unescape(l.encoded)])
  }

  /** After a label: the end, or a comma and more, where the comma may also be the last thing. */
  function AfterLabel(u: string, labels: LabelSet): Result<LabelSet, ParseError>
    decreases |u|, 1
  {
    if u == [] then Ok(labels) else if u[0] != ',' then Err(Invalid) else Parse(u[1..], labels)
  }

  // ----- the index loop -----

  method SkipBlanksAt(raw: string, start: nat) returns (i: nat)
    requires start <= |raw|
    ensures start <= i <= |raw| && raw[i..] == SkipBlanks(raw[start..])
  {
    i := start;
    while i < |raw| && Blank(raw[i])
      invariant start <= i <= |raw|
      invariant SkipBlanks(raw[i..]) == SkipBlanks(raw[start..])
    {
      assert raw[i..][1..] == raw[i + 1..];
      i := i + 1;
    }
  }

  method SkipNameAt(raw: string, start: nat) returns (i: nat)
    requires start <= |raw|
    ensures start <= i <= |raw| && i - start == NameRun(raw[start..])
  {
    i := start;
    while i < |raw| && NameCont(raw[i])
      invariant start <= i <= |raw|
      invariant i - start + NameRun(raw[i..]) == NameRun(raw[start..])
    {
      assert raw[i..][1..] == raw[i + 1..];
      i := i + 1;
    }
  }

  /** The position of the closing quote at or after `i`. */
  function QuoteAt(raw: string, i: nat): (k: Option<nat>)
    requires i <= |raw|
    ensures k.Some? ==> i <= k.value < |raw|
    decreases |raw| - i
  {
    if i == |raw| then None
    else if raw[i] == '\\' then (if i + 1 == |raw| then None else QuoteAt(raw, i + 2))
    else if raw[i] == '"' then Some(i)
    else QuoteAt(raw, i + 1)
  }

  lemma {:induction false} QuoteAtEndsTheRun(raw: string, i: nat)
    requires i <= |raw|
    ensures ValueRun(raw[i..]).Some? <==> QuoteAt(raw, i).Some?
    ensures QuoteAt(raw, i).Some? ==> ValueRun(raw[i..]).value == QuoteAt(raw, i).value - i
    decreases |raw| - i
  {
    if i + 1 < |raw| && raw[i] == '\\' {
      assert raw[i..][2..] == raw[i + 2..];
      QuoteAtEndsTheRun(raw, i + 2);
    } else if i < |raw| && raw[i] != '\\' && raw[i] != '"' {
      assert raw[i..][1..] == raw[i + 1..];
      QuoteAtEndsTheRun(raw, i + 1);
    }
  }

  method FindQuote(raw: string, start: nat) returns (i: nat, closed: bool)
    requires start <= |raw|
    ensures closed <==> QuoteAt(raw, start).Some?
    ensures closed ==> QuoteAt(raw, start) == Some(i)
  {
    i, closed := start, false;
    while i < |raw|
      invariant start <= i <= |raw|
      invariant QuoteAt(raw, i) == QuoteAt(raw, start)
    {
      if raw[i] == '\\' {
        if i + 1 >= |raw| { break; }
        i := i + 2;
        continue;
      }
      if raw[i] == '"' { closed := true; break; }
      i := i + 1;
    }
  }

  method ReadValueAt(raw: string, start: nat) returns (r: Result<string, ParseError>, next: nat)
    requires start <= |raw|
    ensures r.Err? ==> ReadValue(raw[start..]) == Err(r.error)
    ensures r.Ok? ==> start < next <= |raw| && ReadValue(raw[start..]) == Ok(Value(r.value, raw[next..]))
  {
    var end, closed := FindQuote(raw, start);
    QuoteAtEndsTheRun(raw, start);
    next := start;
    if !closed { return Err(Unclosed), next; }
    var encoded := raw[start..end];
    assert encoded == raw[start..][..end - start];
    if Utf8Length(encoded) > MAX_LABEL_VALUE_BYTES { return Err(OverCap), next; }
    assert raw[start..][end - start + 1..] == raw[end + 1..];
    return Ok(encoded), end + 1;
  }

  /** A name, an equals sign and the opening quote. */
  method ReadNameAt(raw: string, start: nat) returns (name: Option<string>, next: nat)
    requires start < |raw|
    ensures name.None? ==> ReadLabel(raw[start..]) == Err(Invalid)
    ensures name.Some? ==>
              start < next <= |raw| && ReadLabel(raw[start..]) == Named(name.value, ReadValue(raw[next..]))
  {
    next := start;
    if !NameStart(raw[start]) { return None, next; }
    var i := SkipNameAt(raw, start + 1);
    assert raw[start..][1..] == raw[start + 1..];
    if i >= |raw| || raw[i] != '=' { return None, next; }
    if i + 1 >= |raw| || raw[i + 1] != '"' { return None, next; }
    assert raw[start..i] == raw[start..][..i - start];
    assert raw[start..][i - start + 2..] == raw[i + 2..];
    return Some(raw[start..i]), i + 2;
  }

  method ReadLabelAt(raw: string, start: nat) returns (r: Result<(string, string), ParseError>, next: nat)
    requires start < |raw|
    ensures r.Err? ==> ReadLabel(raw[start..]) == Err(r.error)
    ensures r.Ok? ==> start < next <= |raw| && ReadLabel(raw[start..]) == Ok(Label(r.value.0, r.value.1, raw[next..]))
  {
    var name, i := ReadNameAt(raw, start);
    if name.None? { return Err(Invalid), start; }
    var value, after := ReadValueAt(raw, i);
    if value.Err? { return Err(value.error), start; }
    return Ok((name.value, value.value)), after;
  }

  lemma {:induction false} ParseReadsLabel(s: string, labels: LabelSet, l: Label)
    requires SkipBlanks(s) != [] && ReadLabel(SkipBlanks(s)) == Ok(l)
    ensures Parse(s, labels) == AfterLabel(SkipBlanks(l.rest), labels[l.name := Unescape(l.encoded)])
  {
  }

  lemma {:induction false} ParseRefusesLabel(s: string, labels: LabelSet, e: ParseError)
    requires SkipBlanks(s) != [] && ReadLabel(SkipBlanks(s)) == Err(e)
    ensures Parse(s, labels) == Err(e)
  {
  }

  /** One label from position `i`: an answer, or the set so far and the position to go on from. */
  method ParseOne(raw: string, i: nat, labels: LabelSet)
    returns (r: Option<Result<LabelSet, ParseError>>, more: LabelSet, next: nat)
    requires i <= |raw|
    ensures r.Some? ==> Parse(raw[i..], labels) == r.value
    ensures r.None? ==> i < next <= |raw| && Parse(raw[i..], labels) == AfterLabel(SkipBlanks(raw[next..]), more)
  {
    more := labels;
    next := SkipBlanksAt(raw, i);
    if next >= |raw| { return Some(Ok(labels)), more, next; }
    var read, after := ReadLabelAt(raw, next);
    match read
    case Err(e) =>
      ParseRefusesLabel(raw[i..], labels, e);
      return Some(Err(e)), more, next;
    case Ok(found) =>
      ParseReadsLabel(raw[i..], labels, Label(found.0, found.1, raw[after..]));
      return None, labels[found.0 := Unescape(found.1)], after;
  }

  /** The end of the text or a comma, from position `i` behind a label. */
  method SkipComma(raw: string, i: nat, labels: LabelSet)
    returns (r: Option<Result<LabelSet, ParseError>>, next: nat)
    requires i <= |raw|
    ensures r.Some? ==> AfterLabel(SkipBlanks(raw[i..]), labels) == r.value
    ensures r.None? ==> i < next <= |raw| && AfterLabel(SkipBlanks(raw[i..]), labels) == Parse(raw[next..], labels)
  {
    next := SkipBlanksAt(raw, i);
    if next >= |raw| { return Some(Ok(labels)), next; }
    if raw[next] != ',' { return Some(Err(Invalid)), next; }
    assert raw[next..][1..] == raw[next + 1..];
    return None, next + 1;
  }

  /** The parser ends on every text, and reads exactly the grammar. */
  method ParseLabels(raw: string) returns (r: Result<LabelSet, ParseError>)
    ensures r == Parse(raw, map[])
  {
    var labels: LabelSet := map[];
    var i := 0;
    ghost var parsed := Parse(raw, map[]);
    assert raw[0..] == raw;
    while true
      invariant 0 <= i <= |raw|
      invariant parsed == Parse(raw[i..], labels)
      decreases |raw| - i
    {
      var answer, more, next := ParseOne(raw, i, labels);
      if answer.Some? { return answer.value; }
      var last, after := SkipComma(raw, next, more);
      if last.Some? { return last.value; }
      labels, i := more, after;
    }
  }

  // ----- printing -----

  datatype Pair = Pair(name: string, value: string)

  function PrintPair(p: Pair): string {
    p.name + "=\"" + Escape(p.value) + "\""
  }

  function Print(pairs: seq<Pair>): string {
    if pairs == [] then []
    else if |pairs| == 1 then PrintPair(pairs[0])
    else PrintPair(pairs[0]) + "," + Print(pairs[1..])
  }

  predicate ValidName(name: string) {
    name != [] && NameStart(name[0]) && forall i :: 0 <= i < |name| ==> NameCont(name[i])
  }

  predicate ValidNames(pairs: seq<Pair>) {
    forall i :: 0 <= i < |pairs| ==> ValidName(pairs[i].name)
  }

  /** The escaped value takes more than 4096 bytes in UTF-8. */
  predicate Oversized(v: string) {
    |Utf8(Escape(v))| > 4096
  }

  lemma {:induction false} NameRunStops(name: string, tail: string)
    requires forall i :: 0 <= i < |name| ==> NameCont(name[i])
    requires tail != [] && !NameCont(tail[0])
    ensures NameRun(name + tail) == |name|
    decreases |name|
  {
    if name == [] {
      assert name + tail == tail;
    } else {
      assert (name + tail)[1..] == name[1..] + tail;
      NameRunStops(name[1..], tail);
    }
  }

  lemma {:induction false} ValueRunOverEscape(x: char, s: string)
    ensures ValueRun(['\\', x] + s)
            == match ValueRun(s) { case None => None case Some(k) => Some(k + 2) }
  {
  }

  lemma {:induction false} ValueRunOverPlain(c: char, s: string)
    requires c != '\\' && c != '"'
    ensures ValueRun([c] + s)
            == match ValueRun(s) { case None => None case Some(k) => Some(k + 1) }
  {
  }

  /** The first unescaped quote after an escaped value is the printer's closing quote. */
  lemma {:induction false} ValueRunFindsTheClosingQuote(v: string, tail: string)
    ensures ValueRun(Expand(0, v) + ("\"" + tail)) == Some(|Expand(0, v)|)
    decreases |v|
  {
    var close := "\"" + tail;
    if v == [] {
      assert Expand(0, v) + close == close;
    } else {
      var c, s := v[0], Expand(0, v[1..]);
      ValueRunFindsTheClosingQuote(v[1..], tail);
      assert Expand(0, v) + close == Token(0, c) + (s + close);
      if c == '\\' { ValueRunOverEscape('\\', s + close); }
      else if c == '"' { ValueRunOverEscape('"', s + close); }
      else if c == '\n' { ValueRunOverEscape('n', s + close); }
      else if c == '\r' { ValueRunOverEscape('r', s + close); }
      else { ValueRunOverPlain(c, s + close); }
    }
  }

  lemma ReadPrintedValue(v: string, tail: string)
    ensures ReadValue(Escape(v) + ("\"" + tail))
            == if Oversized(v) then Err(OverCap) else Ok(Value(Escape(v), tail))
  {
    Utf8LengthIs(Escape(v));
    EscapeIsPerCharacter(v);
    ValueRunFindsTheClosingQuote(v, tail);
    var enc := Expand(0, v);
    var s := enc + ("\"" + tail);
    assert s[..|enc|] == enc;
    assert s[|enc| + 1..] == tail;
  }

  lemma PrintedPairCuts(name: string, value: string, tail: string)
    requires ValidName(name)
    ensures var s := name + "=\"" + value + "\"" + tail;
            && s[0] == name[0] && s[..|name|] == name && s[1..] == name[1..] + s[|name|..]
            && s[|name|] == '=' && s[|name| + 1] == '"' && s[|name| + 2..] == value + ("\"" + tail)
  {
  }

  /** Reading back one printed pair. */
  lemma ReadPrintedPair(p: Pair, tail: string)
    requires ValidName(p.name)
    ensures ReadLabel(PrintPair(p) + tail)
            == if Oversized(p.value) then Err(OverCap) else Ok(Label(p.name, Escape(p.value), tail))
  {
    var s := PrintPair(p) + tail;
    PrintedPairCuts(p.name, Escape(p.value), tail);
    NameRunStops(p.name[1..], s[|p.name|..]);
    ReadPrintedValue(p.value, tail);
  }

  /** What the parser returns for a printed set, added to `labels`. */
  function ReadBack(pairs: seq<Pair>, labels: LabelSet): LabelSet
    decreases |pairs|
  {
    if pairs == [] then labels
    else ReadBack(pairs[1..], labels[pairs[0].name := Unescape(Escape(pairs[0].value))])
  }

  predicate AnyOversized(pairs: seq<Pair>) {
    exists i :: 0 <= i < |pairs| && Oversized(pairs[i].value)
  }

  lemma AnyOversizedStep(pairs: seq<Pair>)
    requires pairs != []
    ensures AnyOversized(pairs) <==> Oversized(pairs[0].value) || AnyOversized(pairs[1..])
  {
  }

  lemma {:induction false} NoBlankAtHead(p: Pair, tail: string)
    requires ValidName(p.name)
    ensures SkipBlanks(PrintPair(p) + tail) == PrintPair(p) + tail
  {
  }

  /** Parsing a printed label set, with values of any content and size. */
  lemma {:induction false} ParsePrinted(pairs: seq<Pair>, labels: LabelSet)
    requires ValidNames(pairs)
    ensures Parse(Print(pairs), labels) == if AnyOversized(pairs) then Err(OverCap) else Ok(ReadBack(pairs, labels))
    decreases |pairs|
  {
    if pairs != [] {
      var p, rest := pairs[0], pairs[1..];
      assert ValidName(p.name);
      var tail := if |pairs| == 1 then "" else "," + Print(rest);
      assert Print(pairs) == PrintPair(p) + tail;
      NoBlankAtHead(p, tail);
      ReadPrintedPair(p, tail);
      AnyOversizedStep(pairs);
      assert ValidNames(rest);
      if |pairs| > 1 {
        assert SkipBlanks(tail) == tail;
        assert tail[1..] == Print(rest);
        ParsePrinted(rest, labels[p.name := Unescape(Escape(p.value))]);
      }
    }
  }

  // ----- blanks and a last comma -----

  predicate AllBlank(s: string) {
    forall i :: 0 <= i < |s| ==> s[i] == ' ' || s[i] == '\t'
  }

  /** A printed pair with blanks on either side. */
  datatype Spaced = Spaced(before: string, pair: Pair, after: string)

  predicate SpacedRight(items: seq<Spaced>) {
    forall i :: 0 <= i < |items| ==> AllBlank(items[i].before) && AllBlank(items[i].after) && ValidName(items[i].pair.name)
  }

  function PairsOf(items: seq<Spaced>): seq<Pair> {
    if items == [] then [] else [items[0].pair] + PairsOf(items[1..])
  }

  /** The items, comma separated, and `end` after the last of them. */
  function PrintSpaced(items: seq<Spaced>, end: string): string
    requires items != []
    decreases |items|
  {
    items[0].before + (PrintPair(items[0].pair) + (items[0].after + PrintRest(items, end)))
  }

  function PrintRest(items: seq<Spaced>, end: string): string
    requires items != []
    decreases |items|, 0
  {
    if |items| == 1 then end else "," + PrintSpaced(items[1..], end)
  }

  lemma {:induction false} BlanksSkipped(pad: string, s: string)
    requires AllBlank(pad)
    ensures SkipBlanks(pad + s) == SkipBlanks(s)
    decreases |pad|
  {
    if pad == [] {
      assert pad + s == s;
    } else {
      assert (pad + s)[1..] == pad[1..] + s;
      BlanksSkipped(pad[1..], s);
    }
  }

  /** Nothing, or a last comma with blanks after it. */
  predicate HarmlessEnd(end: string) {
    end == [] || (end[0] == ',' && AllBlank(end[1..]))
  }

  lemma {:induction false} BlanksParseToNothing(pad: string, labels: LabelSet)
    requires AllBlank(pad)
    ensures Parse(pad, labels) == Ok(labels)
  {
    assert pad + [] == pad;
    BlanksSkipped(pad, []);
  }

  lemma {:induction false} HarmlessEndParses(end: string, labels: LabelSet)
    requires HarmlessEnd(end)
    ensures AfterLabel(SkipBlanks(end), labels) == Ok(labels)
  {
    if end != [] { BlanksParseToNothing(end[1..], labels); }
  }

  lemma {:induction false} CommaParses(s: string, labels: LabelSet)
    ensures AfterLabel(SkipBlanks("," + s), labels) == Parse(s, labels)
  {
    assert ("," + s)[1..] == s;
  }

  lemma {:induction false} ParseSpacedHead(item: Spaced, rest: string, labels: LabelSet)
    requires AllBlank(item.before) && AllBlank(item.after) && ValidName(item.pair.name)
    ensures Parse(item.before + (PrintPair(item.pair) + (item.after + rest)), labels)
            == if Oversized(item.pair.value) then Err(OverCap)
               else AfterLabel(SkipBlanks(rest), labels[item.pair.name := Unescape(Escape(item.pair.value))])
  {
    var tail := item.after + rest;
    BlanksSkipped(item.before, PrintPair(item.pair) + tail);
    NoBlankAtHead(item.pair, tail);
    ReadPrintedPair(item.pair, tail);
    BlanksSkipped(item.after, rest);
  }

  /** Blanks around labels and a comma after the last one change nothing: the text reads as
      the same pairs printed plainly do. */
  lemma {:induction false} ParseSpaced(items: seq<Spaced>, end: string, labels: LabelSet)
    requires items != [] && SpacedRight(items) && HarmlessEnd(end)
    ensures Parse(PrintSpaced(items, end), labels)
            == if AnyOversized(PairsOf(items)) then Err(OverCap) else Ok(ReadBack(PairsOf(items), labels))
    decreases |items|
  {
    var item, rest := items[0], PrintRest(items, end);
    var next := labels[item.pair.name := Unescape(Escape(item.pair.value))];
    ParseSpacedHead(item, rest, labels);
    AnyOversizedStep(PairsOf(items));
    assert PairsOf(items)[1..] == PairsOf(items[1..]);
    if |items| == 1 {
      HarmlessEndParses(end, next);
    } else {
      assert SpacedRight(items[1..]);
      ParseSpaced(items[1..], end, next);
      CommaParses(PrintSpaced(items[1..], end), next);
    }
  }

  // ----- when the set survives -----

  /** The set the caller asked to print. */
  function Intended(pairs: seq<Pair>, labels: LabelSet): LabelSet
    decreases |pairs|
  {
    if pairs == [] then labels else Intended(pairs[1..], labels[pairs[0].name := pairs[0].value])
  }

  predicate DistinctNames(pairs: seq<Pair>) {
    forall i, j :: 0 <= i < j < |pairs| ==> pairs[i].name != pairs[j].name
  }

  function Collapsed(pairs: seq<Pair>): seq<Pair> {
    seq(|pairs|, i requires 0 <= i < |pairs| => Pair(pairs[i].name, Unescape(Escape(pairs[i].value))))
  }

  lemma {:induction false} IntendedKeeps(pairs: seq<Pair>, labels: LabelSet, name: string)
    requires forall i :: 0 <= i < |pairs| ==> pairs[i].name != name
    ensures name in Intended(pairs, labels) <==> name in labels
    ensures name in labels ==> Intended(pairs, labels)[name] == labels[name]
    decreases |pairs|
  {
    if pairs != [] { IntendedKeeps(pairs[1..], labels[pairs[0].name := pairs[0].value], name); }
  }

  lemma {:induction false} IntendedAt(pairs: seq<Pair>, labels: LabelSet, i: nat)
    requires DistinctNames(pairs) && i < |pairs|
    ensures pairs[i].name in Intended(pairs, labels) && Intended(pairs, labels)[pairs[i].name] == pairs[i].value
    decreases |pairs|
  {
    var more := labels[pairs[0].name := pairs[0].value];
    if i == 0 {
      IntendedKeeps(pairs[1..], more, pairs[0].name);
    } else {
      IntendedAt(pairs[1..], more, i - 1);
    }
  }

  lemma {:induction false} ReadBackIsIntendedOfCollapsed(pairs: seq<Pair>, labels: LabelSet)
    ensures ReadBack(pairs, labels) == Intended(Collapsed(pairs), labels)
    decreases |pairs|
  {
    if pairs != [] {
      var p := pairs[0];
      assert Collapsed(pairs)[1..] == Collapsed(pairs[1..]);
      ReadBackIsIntendedOfCollapsed(pairs[1..], labels[p.name := Unescape(Escape(p.value))]);
    }
  }

  predicate AllClean(pairs: seq<Pair>) {
    forall i :: 0 <= i < |pairs| ==> Clean(pairs[i].value)
  }

  lemma {:induction false} ReadBackExactIff(pairs: seq<Pair>)
    requires DistinctNames(pairs)
    ensures ReadBack(pairs, map[]) == Intended(pairs, map[]) <==> AllClean(pairs)
  {
    var c := Collapsed(pairs);
    ReadBackIsIntendedOfCollapsed(pairs, map[]);
    if AllClean(pairs) {
      forall i | 0 <= i < |pairs|
        ensures c[i] == pairs[i]
      {
        EscapeRoundTripsIff(pairs[i].value);
      }
      assert c == pairs;
    }
    if ReadBack(pairs, map[]) == Intended(pairs, map[]) {
      forall i | 0 <= i < |pairs|
        ensures Clean(pairs[i].value)
      {
        IntendedAt(pairs, map[], i);
        assert DistinctNames(c);
        IntendedAt(c, map[], i);
        EscapeRoundTripsIff(pairs[i].value);
      }
    }
  }

  /** Printing a label set and parsing it gives back that set exactly when every value is
      clean and its encoding fits the cap. */
  lemma {:induction false} PrintThenParseIff(pairs: seq<Pair>)
    requires ValidNames(pairs) && DistinctNames(pairs)
    ensures Parse(Print(pairs), map[]) == Ok(Intended(pairs, map[])) <==> AllClean(pairs) && !AnyOversized(pairs)
  {
    ParsePrinted(pairs, map[]);
    ReadBackExactIff(pairs);
  }
}
