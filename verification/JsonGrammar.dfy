/**
 * The JSON grammar of RFC 8259 as syntax trees, independent of the reader: every tree has a text and
 * a value, and the reader reads exactly the texts of trees, as their values.
 */
module JsonGrammar {
  import opened Prelude
  import opened Json
  import opened JsonRoundTrip

  // ----- Syntax (sections 2 and 4 to 7; numbers without fraction and exponent)

  /** One character of a string, and how it is spelled. */
  datatype Piece =
    | Plain(c: char)
    | Letter(c: char, letter: char)
    | Code(c: char, digits: string)
    | Pair(c: char, high: string, low: string)

  /** The strings called `space` are white space, which may be empty. */
  datatype Syntax =
    | NullWord
    | BoolWord(b: bool)
    | Integer(negative: bool, digits: string)
    | Text(pieces: seq<Piece>)
    | NoItems(space: string)
    | Items(items: ItemList)
    | NoMembers(space: string)
    | Members(members: MemberList)

  datatype ItemList =
    | LastItem(space: string, item: Syntax, space': string)
    | MoreItems(space: string, item: Syntax, space': string, rest: ItemList)

  /** Spaces before the key, before the colon, after it, and after the value. */
  datatype MemberList =
    | LastMember(space: string, key: seq<Piece>, space': string, space'': string, value: Syntax, end: string)
    | MoreMembers(space: string, key: seq<Piece>, space': string, space'': string, value: Syntax, end: string,
                  rest: MemberList)

  ghost predicate Blank(s: string) {
    forall i :: 0 <= i < |s| ==> s[i] in {' ', '\t', '\n', '\r'}
  }

  ghost predicate HexDigitOf(x: char, v: int) {
    || (0 <= v < 10 && x as int == '0' as int + v)
    || (10 <= v < 16 && (x as int == 'a' as int + v - 10 || x as int == 'A' as int + v - 10))
  }

  /** Four hexadecimal digits, of either case, and their number. */
  ghost predicate HexNumber(digits: string, n: int) {
    && |digits| == 4
    && exists a, b, c, d ::
         && HexDigitOf(digits[0], a) && HexDigitOf(digits[1], b)
         && HexDigitOf(digits[2], c) && HexDigitOf(digits[3], d)
         && n == ((a * 16 + b) * 16 + c) * 16 + d
  }

  ghost predicate GoodPiece(p: Piece) {
    match p
    case Plain(c) => c as int >= 0x20 && c != '\"' && c != '\\'
    case Letter(c, letter) =>
      (letter, c) in {('\"', '\"'), ('\\', '\\'), ('/', '/'), ('b', 8 as char), ('f', 12 as char),
                      ('n', '\n'), ('r', '\r'), ('t', '\t')}
    case Code(c, digits) => HexNumber(digits, c as int)
    case Pair(c, high, low) =>
      exists h, l ::
        && HexNumber(high, h) && HexNumber(low, l) && 0xD800 <= h < 0xDC00 && 0xDC00 <= l < 0xE000
        && c as int == 0x10000 + (h - 0xD800) * 0x400 + (l - 0xDC00)
  }

  ghost predicate GoodPieces(ps: seq<Piece>) {
    forall i :: 0 <= i < |ps| ==> GoodPiece(ps[i])
  }

  ghost predicate Good(x: Syntax) {
    match x
    case NullWord => true
    case BoolWord(_) => true
    case Integer(_, digits) =>
      digits != "" && (forall i :: 0 <= i < |digits| ==> IsDigit(digits[i])) && (|digits| > 1 ==> digits[0] != '0')
    case Text(pieces) => GoodPieces(pieces)
    case NoItems(space) => Blank(space)
    case Items(items) => GoodItems(items)
    case NoMembers(space) => Blank(space)
    case Members(members) => GoodMembers(members)
  }

  ghost predicate GoodItems(x: ItemList) {
    Blank(x.space) && Good(x.item) && Blank(x.space') && (x.MoreItems? ==> GoodItems(x.rest))
  }

  ghost predicate GoodMembers(x: MemberList) {
    && Blank(x.space) && GoodPieces(x.key) && Blank(x.space') && Blank(x.space'') && Good(x.value) && Blank(x.end)
    && (x.MoreMembers? ==> GoodMembers(x.rest))
  }

  // ----- The text of a tree, in front of a text

  function PieceText(p: Piece): string {
    match p
    case Plain(c) => [c]
    case Letter(_, letter) => ['\\', letter]
    case Code(_, digits) => "\\u" + digits
    case Pair(_, high, low) => "\\u" + (high + ("\\u" + low))
  }

  function WritePieces(ps: seq<Piece>, k: string): string {
    if ps == [] then "\"" + k else PieceText(ps[0]) + WritePieces(ps[1..], k)
  }

  function Write(x: Syntax, k: string): string {
    match x
    case NullWord => "null" + k
    case BoolWord(b) => (if b then "true" else "false") + k
    case Integer(negative, digits) => (if negative then "-" + digits else digits) + k
    case Text(pieces) => "\"" + WritePieces(pieces, k)
    case NoItems(space) => "[" + (space + ("]" + k))
    case Items(items) => "[" + WriteItems(items, k)
    case NoMembers(space) => "{" + (space + ("}" + k))
    case Members(members) => "{" + WriteMembers(members, k)
  }

  function WriteItems(x: ItemList, k: string): string {
    match x
    case LastItem(space, item, space') => space + Write(item, space' + ("]" + k))
    case MoreItems(space, item, space', rest) => space + Write(item, space' + ("," + WriteItems(rest, k)))
  }

  function WriteMembers(x: MemberList, k: string): string {
    match x
    case LastMember(space, key, space', space'', value, end) =>
      space + ("\"" + WritePieces(key, space' + (":" + (space'' + Write(value, end + ("}" + k))))))
    case MoreMembers(space, key, space', space'', value, end, rest) =>
      space + ("\"" + WritePieces(key, space' + (":" + (space'' + Write(value, end + ("," + WriteMembers(rest, k)))))))
  }

  // ----- The value of a tree

  function PiecesValue(ps: seq<Piece>): string {
    seq(|ps|, i requires 0 <= i < |ps| => ps[i].c)
  }

  /** The number of a digit string, read from the left. */
  function Decimal(digits: string): int {
    if digits == "" then 0 else 10 * Decimal(digits[..|digits| - 1]) + (digits[|digits| - 1] as int - '0' as int)
  }

  function ValueOf(x: Syntax): Value {
    match x
    case NullWord => Null
    case BoolWord(b) => Bool(b)
    case Integer(negative, digits) => Num(if negative then -Decimal(digits) else Decimal(digits))
    case Text(pieces) => Str(PiecesValue(pieces))
    case NoItems(_) => List([])
    case Items(items) => List(ItemsValue(items))
    case NoMembers(_) => Map(map[])
    case Members(members) => Map(MembersValue(members, map[]))
  }

  function ItemsValue(x: ItemList): seq<Value> {
    [ValueOf(x.item)] + if x.LastItem? then [] else ItemsValue(x.rest)
  }

  /** Of two members with one key the later one counts. */
  function MembersValue(x: MemberList, sofar: map<string, Value>): map<string, Value> {
    var m := sofar[PiecesValue(x.key) := ValueOf(x.value)];
    if x.LastMember? then m else MembersValue(x.rest, m)
  }

  // ----- The reader reads every text

  lemma BlankIsSpace(s: string)
    ensures Blank(s) <==> AllSpace(s)
  {
  }

  lemma SkipsBlank(a: string, b: string)
    requires Blank(a) && b != "" && !IsSpace(b[0])
    ensures SkipSpace(a + b) == b
  {
    BlankIsSpace(a);
    SkipsSpace(a, b);
  }

  lemma ReadsHexNumber(digits: string, n: int, k: string)
    requires HexNumber(digits, n)
    ensures Hex4(digits + k) == Some(n) && (digits + k)[4..] == k
  {
    var a, b, c, d :|
      && HexDigitOf(digits[0], a) && HexDigitOf(digits[1], b) && HexDigitOf(digits[2], c) && HexDigitOf(digits[3], d)
      && n == ((a * 16 + b) * 16 + c) * 16 + d;
    var s := digits + k;
    assert s[0] == digits[0] && s[1] == digits[1] && s[2] == digits[2] && s[3] == digits[3];
    HexDigitReads(digits[0], a);
    HexDigitReads(digits[1], b);
    HexDigitReads(digits[2], c);
    HexDigitReads(digits[3], d);
  }

  lemma HexDigitReads(x: char, v: int)
    ensures HexDigitOf(x, v) <==> HexValue(x) == Some(v)
  {
  }

  lemma ReadsLetter(c: char, letter: char, k: string)
    requires GoodPiece(Letter(c, letter))
    ensures ReadEscape([letter] + k) == Got(c, k)
  {
    hide ReadUnicode;
    assert ([letter] + k)[1..] == k;
  }

  lemma ReadsCode(c: char, digits: string, k: string)
    requires GoodPiece(Code(c, digits))
    ensures ReadUnicode(digits + k) == Got(c, k)
  {
    ReadsHexNumber(digits, c as int, k);
    hide HexNumber, Hex4;
  }

  lemma ReadsPair(c: char, high: string, low: string, k: string)
    requires GoodPiece(Pair(c, high, low))
    ensures ReadUnicode(high + ("\\u" + (low + k))) == Got(c, k)
  {
    hide Hex4, ReadUnicode;
    var h, l :| HexNumber(high, h) && HexNumber(low, l) && 0xD800 <= h < 0xDC00 && 0xDC00 <= l < 0xE000
      && c as int == 0x10000 + (h - 0xD800) * 0x400 + (l - 0xDC00);
    assert |high| == |low| == 4;
    hide HexNumber;
    ReadsHexNumber(high, h, "\\u" + (low + k));
    ReadsHexNumber(low, l, k);
    PairReads(high + ("\\u" + (low + k)), "\\u" + (low + k), low + k, k, h, l, c);
  }

  lemma PairReads(s: string, t: string, u: string, k: string, h: int, l: int, c: char)
    requires Hex4(s) == Some(h) && s[4..] == t && t == "\\u" + u && Hex4(u) == Some(l) && u[4..] == k
    requires 0xD800 <= h < 0xDC00 && 0xDC00 <= l < 0xE000
    requires c as int == 0x10000 + (h - 0xD800) * 0x400 + (l - 0xDC00)
    ensures ReadUnicode(s) == Got(c, k)
  {
    hide Hex4;
    assert t[2..] == u && s[6..] == t[2..] && s[10..] == u[4..];
  }

  /** What the reader does with one character of a string, escape or not. */
  ghost predicate ReadsAs(s: string, c: char, k: string) {
    && s != "" && s[0] != '\"' && s[0] >= ' '
    && (if s[0] == '\\' then ReadEscape(s[1..]) else Got(s[0], s[1..])) == Got(c, k)
  }

  lemma ReadsPiece(p: Piece, k: string)
    requires GoodPiece(p)
    ensures ReadsAs(PieceText(p) + k, p.c, k)
  {
    hide ReadsAs, GoodPiece, PieceText;
    match p
    case Plain(_) => ReadsPlainPiece(p, k);
    case Letter(_, _) => ReadsLetterPiece(p, k);
    case Code(_, _) => ReadsCodePiece(p, k);
    case Pair(_, _, _) => ReadsPairPiece(p, k);
  }

  lemma ReadsPlainPiece(p: Piece, k: string)
    requires p.Plain? && GoodPiece(p)
    ensures ReadsAs(PieceText(p) + k, p.c, k)
  {
    hide ReadEscape;
    assert (PieceText(p) + k)[1..] == k;
  }

  lemma ReadsLetterPiece(p: Piece, k: string)
    requires p.Letter? && GoodPiece(p)
    ensures ReadsAs(PieceText(p) + k, p.c, k)
  {
    ReadsLetter(p.c, p.letter, k);
    hide ReadEscape, GoodPiece;
    assert (PieceText(p) + k)[1..] == [p.letter] + k;
  }

  lemma ReadsCodePiece(p: Piece, k: string)
    requires p.Code? && GoodPiece(p)
    ensures ReadsAs(PieceText(p) + k, p.c, k)
  {
    hide ReadEscape, ReadUnicode, GoodPiece;
    ReadsCode(p.c, p.digits, k);
    assert PieceText(p) + k == "\\u" + (p.digits + k);
    UnicodeFollows(PieceText(p) + k, p.digits + k);
  }

  lemma ReadsPairPiece(p: Piece, k: string)
    requires p.Pair? && GoodPiece(p)
    ensures ReadsAs(PieceText(p) + k, p.c, k)
  {
    hide ReadEscape, ReadUnicode, GoodPiece;
    var low := "\\u" + (p.low + k);
    ReadsPair(p.c, p.high, p.low, k);
    assert PieceText(p) + k == "\\u" + (p.high + low);
    UnicodeFollows(PieceText(p) + k, p.high + low);
  }

  lemma UnicodeFollows(s: string, t: string)
    requires s == "\\u" + t
    ensures s != "" && s[0] == '\\' && ReadEscape(s[1..]) == ReadUnicode(t)
  {
    hide ReadUnicode;
    assert s[1..] == ['u'] + t && s[1..][1..] == t;
  }

  lemma {:induction false} ReadsPieces(ps: seq<Piece>, k: string)
    requires GoodPieces(ps)
    ensures ReadString(WritePieces(ps, k)) == Got(PiecesValue(ps), k)
  {
    hide ReadEscape, PieceText, GoodPiece;
    if ps == [] {
      assert ("\"" + k)[1..] == k;
    } else {
      var t := WritePieces(ps[1..], k);
      ReadsPieces(ps[1..], k);
      ReadsPiece(ps[0], t);
      assert PiecesValue(ps) == [ps[0].c] + PiecesValue(ps[1..]);
    }
  }

  lemma {:induction false} DecimalIs(digits: string)
    requires forall i :: 0 <= i < |digits| ==> IsDigit(digits[i])
    ensures DigitsValue(digits) == Decimal(digits)
  {
    if digits != "" {
      DecimalIs(digits[..|digits| - 1]);
    }
  }

  lemma ReadsInteger(x: Syntax, k: string)
    requires x.Integer? && Good(x) && EndsInt(k)
    ensures ReadInt(Write(x, k)) == Got(ValueOf(x), k)
  {
    hide DigitRun, DigitsValue, Decimal;
    var s := Write(x, k);
    var t := x.digits + k;
    assert x.negative ==> s[1..] == t;
    assert !x.negative ==> s == t && s[0] == x.digits[0] && s[0] != '-';
    DigitRunAll(x.digits, k);
    EndsIntRest(k);
    DecimalIs(x.digits);
    assert t[..|x.digits|] == x.digits && t[|x.digits|..] == k;
  }

  /** No text of a tree starts with white space or with a closing bracket or brace. */
  lemma WrittenStarts(x: Syntax, k: string)
    requires Good(x)
    ensures var s := Write(x, k); s != "" && !IsSpace(s[0]) && s[0] !in "]},:"
  {
  }

  lemma {:induction false} ReadsSyntax(x: Syntax, k: string)
    requires Good(x) && EndsInt(k)
    ensures ReadValue(Write(x, k)) == Got(ValueOf(x), k)
    decreases x, 1
  {
    match x
    case NullWord => ReadsWord(x, k);
    case BoolWord(_) => ReadsWord(x, k);
    case Integer(_, _) =>
      ReadsInteger(x, k);
      IntegerDispatch(x, k);
    case Text(_) => ReadsText(x, k);
    case NoItems(_) => ReadsEmpty(x, k);
    case Items(items) =>
      ReadsItemList(items, k);
      OpensItems(items, k);
    case NoMembers(_) => ReadsEmpty(x, k);
    case Members(members) =>
      ReadsMemberList(members, map[], k);
      OpensMembers(members, k);
  }

  lemma ReadsWord(x: Syntax, k: string)
    requires x.NullWord? || x.BoolWord?
    ensures ReadValue(Write(x, k)) == Got(ValueOf(x), k)
  {
    hide ReadInt, ReadString, ReadItems, ReadMembers;
    var s := Write(x, k);
    if x.NullWord? {
      assert s[4..] == k && s[..4] == "null";
    } else if x.b {
      assert s[4..] == k && s[..4] == "true";
    } else {
      assert s[5..] == k && s[..5] == "false";
    }
  }

  lemma ReadsText(x: Syntax, k: string)
    requires x.Text? && Good(x)
    ensures ReadValue(Write(x, k)) == Got(ValueOf(x), k)
  {
    hide ReadInt, ReadString, ReadItems, ReadMembers, WritePieces;
    assert Write(x, k)[1..] == WritePieces(x.pieces, k);
    ReadsPieces(x.pieces, k);
  }

  lemma ReadsEmpty(x: Syntax, k: string)
    requires (x.NoItems? || x.NoMembers?) && Good(x)
    ensures ReadValue(Write(x, k)) == Got(ValueOf(x), k)
  {
    hide ReadInt, ReadString, ReadItems, ReadMembers, SkipSpace, Blank;
    var end := (if x.NoItems? then "]" else "}") + k;
    assert Write(x, k)[1..] == x.space + end;
    SkipsBlank(x.space, end);
    assert end[1..] == k;
  }

  lemma OpensItems(items: ItemList, k: string)
    requires var t := SkipSpace(WriteItems(items, k)); t != "" && t[0] != ']' && ReadItems(t).Got?
    ensures var r := ReadItems(SkipSpace(WriteItems(items, k)));
            ReadValue("[" + WriteItems(items, k)) == Got(List(r.value), r.rest)
  {
    hide ReadInt, ReadString, ReadItems, ReadMembers, SkipSpace, WriteItems;
    assert ("[" + WriteItems(items, k))[1..] == WriteItems(items, k);
  }

  lemma OpensMembers(members: MemberList, k: string)
    requires var t := SkipSpace(WriteMembers(members, k)); t != "" && t[0] == '\"' && ReadMembers(t, map[]).Got?
    ensures var r := ReadMembers(SkipSpace(WriteMembers(members, k)), map[]);
            ReadValue("{" + WriteMembers(members, k)) == Got(Map(r.value), r.rest)
  {
    hide ReadInt, ReadString, ReadItems, ReadMembers, SkipSpace, WriteMembers;
    assert ("{" + WriteMembers(members, k))[1..] == WriteMembers(members, k);
  }

  lemma IntegerDispatch(x: Syntax, k: string)
    requires x.Integer? && Good(x)
    ensures ReadValue(Write(x, k)) == ReadInt(Write(x, k))
  {
    var s := Write(x, k);
    assert s[0] == if x.negative then '-' else x.digits[0];
    hide ReadInt, ReadString, ReadItems, ReadMembers;
  }

  lemma EndsAfterBlank(space: string, c: char, k: string)
    requires Blank(space) && c in ",]}"
    ensures EndsInt(space + ([c] + k))
  {
    var s := space + ([c] + k);
    assert s[0] == if space == "" then c else space[0];
  }

  lemma {:induction false} ReadsItemList(x: ItemList, k: string)
    requires GoodItems(x)
    ensures var t := SkipSpace(WriteItems(x, k));
            t != "" && t[0] != ']' && ReadItems(t) == Got(ItemsValue(x), k)
    decreases x, 0
  {
    var tail := if x.LastItem? then "]" + k else "," + WriteItems(x.rest, k);
    var t := Write(x.item, x.space' + tail);
    WrittenStarts(x.item, x.space' + tail);
    SkipsBlank(x.space, t);
    assert WriteItems(x, k) == x.space + t;
    EndsAfterBlank(x.space', if x.LastItem? then ']' else ',', if x.LastItem? then k else WriteItems(x.rest, k));
    ReadsSyntax(x.item, x.space' + tail);
    SkipsBlank(x.space', tail);
    hide ReadValue, Write, WriteItems, SkipSpace, Good, EndsInt, Blank;
    if x.MoreItems? {
      ReadsItemList(x.rest, k);
      assert tail[0] == ',' && tail[1..] == WriteItems(x.rest, k);
      assert ReadItems(t) == Got([ValueOf(x.item)] + ItemsValue(x.rest), k);
    } else {
      assert tail[0] == ']' && tail[1..] == k;
      assert ReadItems(t) == Got([ValueOf(x.item)], k);
      assert [ValueOf(x.item)] + [] == [ValueOf(x.item)];
    }
  }

  lemma {:induction false} ReadsMemberList(x: MemberList, sofar: map<string, Value>, k: string)
    requires GoodMembers(x)
    ensures var t := SkipSpace(WriteMembers(x, k));
            t != "" && t[0] == '\"' && ReadMembers(t, sofar) == Got(MembersValue(x, sofar), k)
    decreases x, 0
  {
    var last := x.LastMember?;
    var tail := if last then "}" + k else "," + WriteMembers(x.rest, k);
    var value := Write(x.value, x.end + tail);
    var afterKey := x.space' + (":" + (x.space'' + value));
    var t := "\"" + WritePieces(x.key, afterKey);
    assert WriteMembers(x, k) == x.space + t;
    hide ReadValue, ReadString, Write, WriteMembers, WritePieces, SkipSpace, Good, EndsInt, Blank, PiecesValue;
    SkipsBlank(x.space, t);
    assert t[1..] == WritePieces(x.key, afterKey);
    ReadsPieces(x.key, afterKey);
    SkipsBlank(x.space', ":" + (x.space'' + value));
    assert (":" + (x.space'' + value))[1..] == x.space'' + value;
    WrittenStarts(x.value, x.end + tail);
    SkipsBlank(x.space'', value);
    EndsAfterBlank(x.end, if last then '}' else ',', if last then k else WriteMembers(x.rest, k));
    ReadsSyntax(x.value, x.end + tail);
    SkipsBlank(x.end, tail);
    var m := sofar[PiecesValue(x.key) := ValueOf(x.value)];
    if last {
      assert tail[1..] == k;
    } else {
      ReadsMemberList(x.rest, m, k);
      assert tail[1..] == WriteMembers(x.rest, k);
    }
  }

  // ----- The reader reads nothing else

  lemma {:induction false} SpaceSkipped(s: string) returns (space: string)
    ensures Blank(space) && s == space + SkipSpace(s)
  {
    if s != "" && IsSpace(s[0]) {
      var more := SpaceSkipped(s[1..]);
      space := [s[0]] + more;
      assert SkipSpace(s) == SkipSpace(s[1..]);
      hide SkipSpace;
      assert s == [s[0]] + (more + SkipSpace(s[1..]));
      Associated([s[0]], more, SkipSpace(s[1..]));
    } else {
      space := "";
    }
  }

  lemma NoSpace()
    ensures Blank("")
  {
  }

  lemma HexNumberOf(s: string)
    requires Hex4(s).Some?
    ensures |s| >= 4 && HexNumber(s[..4], Hex4(s).value)
  {
    var a, b := HexValue(s[0]).value, HexValue(s[1]).value;
    var c, d := HexValue(s[2]).value, HexValue(s[3]).value;
    HexDigitReads(s[0], a);
    HexDigitReads(s[1], b);
    HexDigitReads(s[2], c);
    HexDigitReads(s[3], d);
    assert Hex4(s).value == ((a * 16 + b) * 16 + c) * 16 + d;
  }

  lemma UnicodeOf(s: string) returns (p: Piece)
    requires ReadUnicode(s).Got?
    ensures GoodPiece(p) && p.c == ReadUnicode(s).value && "\\u" + s == PieceText(p) + ReadUnicode(s).rest
  {
    hide Hex4, HexNumber;
    var r := ReadUnicode(s);
    HexNumberOf(s);
    var h := Hex4(s).value;
    if h < 0xD800 || 0xE000 <= h {
      p := Code(r.value, s[..4]);
      assert s == s[..4] + s[4..];
    } else {
      HexNumberOf(s[6..]);
      p := Pair(r.value, s[..4], s[6..][..4]);
      assert HexNumber(p.high, h) && HexNumber(p.low, Hex4(s[6..]).value);
      SplitPair(s);
    }
  }

  lemma SplitPair(s: string)
    requires |s| >= 10 && "\\u" <= s[4..]
    ensures s == s[..4] + ("\\u" + (s[6..][..4] + s[10..]))
    ensures "\\u" + s == ("\\u" + (s[..4] + ("\\u" + s[6..][..4]))) + s[10..]
  {
    assert s[4..] == "\\u" + s[6..] && s[6..] == s[6..][..4] + s[10..];
  }

  lemma EscapeOf(s: string) returns (p: Piece)
    requires ReadEscape(s).Got?
    ensures GoodPiece(p) && p.c == ReadEscape(s).value && "\\" + s == PieceText(p) + ReadEscape(s).rest
  {
    hide ReadUnicode;
    if s[0] == 'u' {
      hide GoodPiece, PieceText;
      p := UnicodeOf(s[1..]);
      assert "\\" + s == "\\u" + s[1..];
    } else {
      p := Letter(ReadEscape(s).value, s[0]);
      assert "\\" + s == ['\\', s[0]] + s[1..];
    }
  }

  lemma {:induction false} PiecesOf(s: string) returns (ps: seq<Piece>)
    requires ReadString(s).Got?
    ensures GoodPieces(ps) && PiecesValue(ps) == ReadString(s).value && s == WritePieces(ps, ReadString(s).rest)
    decreases |s|
  {
    hide ReadEscape, PieceText, GoodPiece, PiecesValue;
    if s[0] == '\"' {
      ps := [];
      assert s == "\"" + s[1..];
      NoPieces();
    } else {
      var p: Piece;
      var rest := s[1..];
      if s[0] == '\\' {
        p := EscapeOf(s[1..]);
        rest := ReadEscape(s[1..]).rest;
        assert s == "\\" + s[1..];
      } else {
        p := Plain(s[0]);
        assert s == [s[0]] + s[1..];
        PlainPiece(s[0]);
      }
      var tail := PiecesOf(rest);
      ps := [p] + tail;
      assert ps[1..] == tail;
      OnePiece(p, tail);
    }
  }

  lemma NoPieces()
    ensures PiecesValue([]) == ""
  {
  }

  lemma PlainPiece(c: char)
    ensures PieceText(Plain(c)) == [c]
    ensures c >= ' ' && c != '\"' && c != '\\' ==> GoodPiece(Plain(c))
  {
  }

  lemma OnePiece(p: Piece, tail: seq<Piece>)
    ensures PiecesValue([p] + tail) == [p.c] + PiecesValue(tail)
  {
  }

  /** The sign, the digits that are read, and what is left. */
  lemma IntegerParts(s: string) returns (negative: bool, digits: string, rest: string)
    requires ReadInt(s).Got?
    ensures s == if negative then "-" + (digits + rest) else digits + rest
    ensures digits != "" && (forall i :: 0 <= i < |digits| ==> IsDigit(digits[i]))
    ensures |digits| > 1 ==> digits[0] != '0'
    ensures ReadInt(s) == Got(Num((if negative then -1 else 1) * DigitsValue(digits)), rest)
  {
    hide DigitRun, DigitsValue;
    negative := s != "" && s[0] == '-';
    var t := if negative then s[1..] else s;
    var len := if DigitRun(t) > 0 && t[0] == '0' then 1 else DigitRun(t);
    digits, rest := t[..len], t[len..];
    assert t == digits + rest;
    assert negative ==> s == "-" + t;
  }

  lemma IntegerOf(s: string) returns (x: Syntax)
    requires ReadInt(s).Got?
    ensures x.Integer? && Good(x) && ValueOf(x) == ReadInt(s).value && s == Write(x, ReadInt(s).rest)
  {
    hide ReadInt, DigitsValue, Decimal;
    var negative, digits, rest := IntegerParts(s);
    x := Integer(negative, digits);
    DecimalIs(digits);
    hide Write;
    IntegerWritten(x, rest);
  }

  lemma IntegerWritten(x: Syntax, rest: string)
    requires x.Integer?
    ensures Write(x, rest) == if x.negative then "-" + (x.digits + rest) else x.digits + rest
  {
    Associated("-", x.digits, rest);
  }

  lemma Associated(a: string, b: string, c: string)
    ensures (a + b) + c == a + (b + c)
  {
  }

  /** Whatever the reader reads is the text of a tree, in front of what it leaves, and the value of that tree. */
  lemma {:induction false} SyntaxOf(s: string) returns (x: Syntax)
    requires ReadValue(s).Got?
    ensures Good(x) && ValueOf(x) == ReadValue(s).value && s == Write(x, ReadValue(s).rest)
    decreases |s|, 1
  {
    hide ReadInt, ReadString, ReadItems, ReadMembers, Good, Write;
    if s[0] == '\"' {
      x := QuotedOf(s);
    } else if s[0] == '[' {
      x := BracketOf(s);
    } else if s[0] == '{' {
      x := BraceOf(s);
    } else if "null" <= s || "true" <= s || "false" <= s {
      x := WordOf(s);
    } else {
      FallsToInteger(s);
      x := IntegerOf(s);
    }
  }

  lemma QuotedOf(s: string) returns (x: Syntax)
    requires ReadValue(s).Got? && s[0] == '\"'
    ensures Good(x) && ValueOf(x) == ReadValue(s).value && s == Write(x, ReadValue(s).rest)
  {
    hide ReadInt, ReadString, ReadItems, ReadMembers, WritePieces, GoodPieces;
    var ps := PiecesOf(s[1..]);
    x := Text(ps);
    assert s == "\"" + s[1..];
  }

  lemma WordOf(s: string) returns (x: Syntax)
    requires "null" <= s || "true" <= s || "false" <= s
    ensures ReadValue(s).Got? && Good(x) && ValueOf(x) == ReadValue(s).value && s == Write(x, ReadValue(s).rest)
  {
    x := if s[0] == 'n' then NullWord else BoolWord(s[0] == 't');
    hide ReadInt, ReadString, ReadItems, ReadMembers;
    if "null" <= s {
      assert s == "null" + s[4..];
    } else if "true" <= s {
      assert s == "true" + s[4..];
    } else {
      assert s == "false" + s[5..];
    }
  }

  lemma FallsToInteger(s: string)
    requires s != "" && s[0] !in "\"[{" && !("null" <= s || "true" <= s || "false" <= s)
    ensures ReadValue(s) == ReadInt(s)
  {
    hide ReadInt, ReadString, ReadItems, ReadMembers;
  }

  lemma BracketOf(s: string) returns (x: Syntax)
    requires ReadValue(s).Got? && s[0] == '['
    ensures Good(x) && ValueOf(x) == ReadValue(s).value && s == Write(x, ReadValue(s).rest)
    decreases |s|, 0
  {
    hide ReadInt, ReadString, ReadItems, ReadMembers, SkipSpace, Blank, WriteItems, GoodItems, ItemsValue;
    var space := SpaceSkipped(s[1..]);
    var t := SkipSpace(s[1..]);
    assert s == "[" + s[1..];
    if t[0] == ']' {
      x := NoItems(space);
      assert t == "]" + t[1..];
    } else {
      assert |t| < |s|;
      var items := ItemsOf(t);
      x := Items(items.(space := space));
      SpaceInFront(items, space, ReadValue(s).rest);
    }
  }

  lemma SpaceInFront(items: ItemList, space: string, k: string)
    requires items.space == ""
    ensures WriteItems(items.(space := space), k) == space + WriteItems(items, k)
    ensures ItemsValue(items.(space := space)) == ItemsValue(items)
    ensures GoodItems(items) && Blank(space) ==> GoodItems(items.(space := space))
  {
  }

  lemma {:induction false} ItemsOf(s: string) returns (x: ItemList)
    requires ReadItems(s).Got?
    ensures x.space == "" && GoodItems(x)
    ensures ItemsValue(x) == ReadItems(s).value && s == WriteItems(x, ReadItems(s).rest)
    decreases |s|, 2
  {
    NoSpace();
    hide ReadValue, SkipSpace, Good, Write, Blank;
    var head := ReadValue(s);
    var item := SyntaxOf(s);
    var space := SpaceSkipped(head.rest);
    var t := SkipSpace(head.rest);
    assert t == [t[0]] + t[1..];
    if t[0] == ']' {
      x := LastItem("", item, space);
    } else {
      var before := SpaceSkipped(t[1..]);
      var rest := ItemsOf(SkipSpace(t[1..]));
      SpaceInFront(rest, before, ReadItems(s).rest);
      x := MoreItems("", item, space, rest.(space := before));
      hide ReadItems;
    }
  }

  lemma BraceOf(s: string) returns (x: Syntax)
    requires ReadValue(s).Got? && s[0] == '{'
    ensures Good(x) && ValueOf(x) == ReadValue(s).value && s == Write(x, ReadValue(s).rest)
    decreases |s|, 0
  {
    hide ReadInt, ReadString, ReadItems, ReadMembers, SkipSpace, Blank, WriteMembers, GoodMembers, MembersValue;
    var space := SpaceSkipped(s[1..]);
    var t := SkipSpace(s[1..]);
    assert s == "{" + s[1..];
    if t[0] == '}' {
      x := NoMembers(space);
      assert t == "}" + t[1..];
    } else {
      var members := MembersOf(t, map[]);
      x := Members(members.(space := space));
      SpaceBefore(members, space, map[], ReadValue(s).rest);
    }
  }

  lemma SpaceBefore(members: MemberList, space: string, sofar: map<string, Value>, k: string)
    requires members.space == ""
    ensures WriteMembers(members.(space := space), k) == space + WriteMembers(members, k)
    ensures MembersValue(members.(space := space), sofar) == MembersValue(members, sofar)
    ensures GoodMembers(members) && Blank(space) ==> GoodMembers(members.(space := space))
  {
    hide Write, WritePieces, Good, GoodPieces, Blank, PiecesValue, MembersValue;
    SameMembers(members, space, sofar);
    assert forall t: string :: "" + t == t;
  }

  lemma SameMembers(members: MemberList, space: string, sofar: map<string, Value>)
    ensures MembersValue(members.(space := space), sofar) == MembersValue(members, sofar)
  {
    hide PiecesValue;
  }

  lemma {:induction false} MembersOf(s: string, sofar: map<string, Value>) returns (x: MemberList)
    requires ReadMembers(s, sofar).Got?
    ensures x.space == "" && GoodMembers(x)
    ensures MembersValue(x, sofar) == ReadMembers(s, sofar).value
    ensures s == WriteMembers(x, ReadMembers(s, sofar).rest)
    decreases |s|, 2
  {
    NoSpace();
    hide ReadValue, ReadString, SkipSpace, Good, Write, WritePieces, Blank, PiecesValue, GoodPieces;
    var key := ReadString(s[1..]);
    var pieces := PiecesOf(s[1..]);
    assert s == "\"" + s[1..];
    var space' := SpaceSkipped(key.rest);
    var t := SkipSpace(key.rest);
    assert t == ":" + t[1..];
    var space'' := SpaceSkipped(t[1..]);
    var v := SkipSpace(t[1..]);
    var val := ReadValue(v);
    var value := SyntaxOf(v);
    var end := SpaceSkipped(val.rest);
    var u := SkipSpace(val.rest);
    var m := sofar[key.value := val.value];
    assert u == [u[0]] + u[1..];
    if u[0] == '}' {
      x := LastMember("", pieces, space', space'', value, end);
    } else {
      var before := SpaceSkipped(u[1..]);
      var rest := MembersOf(SkipSpace(u[1..]), m);
      SpaceBefore(rest, before, m, ReadMembers(s, sofar).rest);
      x := MoreMembers("", pieces, space', space'', value, end, rest.(space := before));
      hide ReadMembers;
    }
  }

  // ----- Whole texts

  /** `t` is a JSON text of the value, with white space around it. */
  ghost predicate IsTextOf(t: string, v: Value) {
    exists before, x, after ::
      Blank(before) && Good(x) && Blank(after) && t == before + Write(x, after) && ValueOf(x) == v
  }

  /** The reader accepts exactly the JSON texts, and reads each as the value it is a text of. */
  lemma ReadsExactly(t: string, v: Value)
    ensures ReadText(t) == Some(v) <==> IsTextOf(t, v)
  {
    if ReadText(t) == Some(v) {
      var before := SpaceSkipped(t);
      var s := SkipSpace(t);
      var x := SyntaxOf(s);
      var after := SpaceSkipped(ReadValue(s).rest);
      hide ReadValue, SkipSpace, Write, Good, Blank;
      assert after + "" == after;
    }
    if IsTextOf(t, v) {
      var before, x, after :|
        Blank(before) && Good(x) && Blank(after) && t == before + Write(x, after) && ValueOf(x) == v;
      WrittenStarts(x, after);
      SkipsBlank(before, Write(x, after));
      BlankEnds(after);
      ReadsSyntax(x, after);
      hide ReadValue, SkipSpace, Write, Good, Blank;
    }
  }

  /** In particular the encoder writes a text of its value. */
  lemma EncodeIsText(v: Value)
    ensures IsTextOf(Encode(v), v)
  {
    hide ReadText, Encode, IsTextOf;
    RoundTrip(v, "", "");
    assert "" + Encode(v) + "" == Encode(v);
    ReadsExactly(Encode(v), v);
  }

  lemma BlankEnds(space: string)
    requires Blank(space)
    ensures EndsInt(space) && SkipSpace(space) == ""
  {
    BlankIsSpace(space);
    SkipsSpace(space, "");
    assert space + "" == space;
  }
}
