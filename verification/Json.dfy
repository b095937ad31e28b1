/**
 * JSON values, the deterministic encoder `_stable_json` and a reader for JSON texts.
 *
 * Grammar and escapes follow RFC 8259: white space and structural characters (section 2),
 * objects (4), arrays (5), numbers (6, integers only) and strings (7).
 */
module Json {
  import opened Prelude
  import opened Ordering

  /**
   * The Python values the model ranges over. A `char` is a Unicode scalar value, so a `string` is
   * exactly a Python `str` that can be encoded in UTF-8. A dict is a `map`: insertion order plays
   * no role in dict equality, nor in the encoding.
   */
  datatype Value =
    | Null
    | Bool(b: bool)
    | Num(n: int)
    | Str(s: string)
    | List(items: seq<Value>)
    | Map(m: map<string, Value>)

  // ----- Dict displays

  /** A dict display: its keys and values in the order in which they are written. */
  type Fields = seq<(string, Value)>

  function Obj(fields: Fields): Value {
    Map(Members(fields, |fields|))
  }

  /** The dict after its first `n` members; a later member with the same key overwrites. */
  function Members(fields: Fields, n: nat): map<string, Value>
    requires n <= |fields|
  {
    if n == 0 then map[] else Members(fields, n - 1)[fields[n - 1].0 := fields[n - 1].1]
  }

  /** No key is written twice. */
  ghost predicate DistinctKeys(fields: Fields) {
    forall i, j :: 0 <= i < j < |fields| ==> fields[i].0 != fields[j].0
  }

  ghost predicate SameKeys(a: Fields, b: Fields) {
    |a| == |b| && forall i :: 0 <= i < |a| ==> a[i].0 == b[i].0
  }

  lemma {:induction false} FieldLookup(fields: Fields, n: nat, i: nat)
    requires DistinctKeys(fields) && i < n <= |fields|
    ensures fields[i].0 in Members(fields, n) && Members(fields, n)[fields[i].0] == fields[i].1
  {
    if i < n - 1 {
      FieldLookup(fields, n - 1, i);
    }
  }

  /** Equal dicts with the same keys written in the same order have the same values. */
  lemma ObjInjective(a: Fields, b: Fields)
    requires Obj(a) == Obj(b) && SameKeys(a, b) && DistinctKeys(a)
    ensures a == b
  {
    forall i | 0 <= i < |a| ensures a[i] == b[i] {
      FieldLookup(a, |a|, i);
      FieldLookup(b, |b|, i);
    }
  }

  // ----- Encoding: json.dumps(value, sort_keys=True, separators=(",", ":"), ensure_ascii=False)

  function Encode(v: Value): string
    decreases v, 1, 0
  {
    match v
    case Null => "null"
    case Bool(b) => if b then "true" else "false"
    case Num(n) => IntText(n)
    case Str(s) => Quote(s)
    case List(items) => "[" + EncodeItems(v, 0) + "]"
    case Map(m) =>
      SortedSetMembers(m.Keys);
      "{" + EncodeMembers(v, SortedSet(m.Keys)) + "}"
  }

  /** The items from position `i` on, separated by commas. */
  function EncodeItems(v: Value, i: nat): string
    requires v.List? && i <= |v.items|
    decreases v, 0, |v.items| - i
  {
    if i == |v.items| then ""
    else Encode(v.items[i]) + (if i + 1 == |v.items| then "" else "," + EncodeItems(v, i + 1))
  }

  /** The members named by `keys`, in that order, separated by commas. */
  function EncodeMembers(v: Value, keys: seq<string>): string
    requires v.Map? && forall k :: k in keys ==> k in v.m
    decreases v, 0, |keys|
  {
    if keys == [] then ""
    else
      Quote(keys[0]) + ":" + Encode(v.m[keys[0]]) +
      (if |keys| == 1 then "" else "," + EncodeMembers(v, keys[1..]))
  }

  function Quote(s: string): string {
    "\"" + EscapeAll(s) + "\""
  }

  function EscapeAll(s: string): string {
    if s == "" then "" else Escape(s[0]) + EscapeAll(s[1..])
  }

  /** Only the quotation mark, the reverse solidus and U+0000..U+001F are escaped. */
  function Escape(c: char): string {
    if c == '\"' then "\\\""
    else if c == '\\' then "\\\\"
    else if c == '\n' then "\\n"
    else if c == '\r' then "\\r"
    else if c == '\t' then "\\t"
    else if c as int == 0x08 then "\\b"
    else if c as int == 0x0C then "\\f"
    else if c < ' ' then "\\u00" + [HexDigit(c as int / 16), HexDigit(c as int % 16)]
    else [c]
  }

  function HexDigit(d: int): char
    requires 0 <= d < 16
  {
    "0123456789abcdef"[d]
  }

  function IntText(n: int): string {
    if n < 0 then "-" + NatText(-n) else NatText(n)
  }

  function NatText(n: nat): (r: string)
    ensures r != ""
  {
    if n < 10 then [Digit(n)] else NatText(n / 10) + [Digit(n % 10)]
  }

  function Digit(d: int): char
    requires 0 <= d < 10
  {
    '0' + d as char
  }

  // ----- Reading: json.loads, with integers as the only numbers

  /** A value read from the front of a text, and what follows it. */
  datatype Read<+T> = Bad | Got(value: T, rest: string)

  predicate IsSpace(c: char) {
    c == ' ' || c == '\t' || c == '\n' || c == '\r'
  }

  function SkipSpace(s: string): (r: string)
    ensures |r| <= |s|
    ensures r != "" ==> !IsSpace(r[0])
  {
    if s != "" && IsSpace(s[0]) then SkipSpace(s[1..]) else s
  }

  /** `json.loads`: one value with optional white space around it. */
  function ReadText(s: string): Option<Value> {
    var r := ReadValue(SkipSpace(s));
    if r.Got? && SkipSpace(r.rest) == "" then Some(r.value) else None
  }

  function ReadValue(s: string): (r: Read<Value>)
    ensures r.Got? ==> |r.rest| < |s|
    decreases |s|, 0
  {
    if s == "" then Bad
    else if s[0] == '\"' then
      var r := ReadString(s[1..]);
      if r.Got? then Got(Str(r.value), r.rest) else Bad
    else if s[0] == '[' then
      var t := SkipSpace(s[1..]);
      if t != "" && t[0] == ']' then Got(List([]), t[1..])
      else
        var r := ReadItems(t);
        if r.Got? then Got(List(r.value), r.rest) else Bad
    else if s[0] == '{' then
      var t := SkipSpace(s[1..]);
      if t != "" && t[0] == '}' then Got(Map(map[]), t[1..])
      else
        var r := ReadMembers(t, map[]);
        if r.Got? then Got(Map(r.value), r.rest) else Bad
    else if s[0] == 'n' && "null" <= s then Got(Null, s[4..])
    else if s[0] == 't' && "true" <= s then Got(Bool(true), s[4..])
    else if s[0] == 'f' && "false" <= s then Got(Bool(false), s[5..])
    else ReadInt(s)
  }

  /** A nonempty list of items up to and including the closing bracket. */
  function ReadItems(s: string): (r: Read<seq<Value>>)
    ensures r.Got? ==> |r.rest| < |s|
    decreases |s|, 1
  {
    var head := ReadValue(s);
    if head.Bad? then Bad
    else
      var t := SkipSpace(head.rest);
      if t == "" then Bad
      else if t[0] == ']' then Got([head.value], t[1..])
      else if t[0] == ',' then
        var tail := ReadItems(SkipSpace(t[1..]));
        if tail.Got? then Got([head.value] + tail.value, tail.rest) else Bad
      else Bad
  }

  /** A nonempty list of members up to and including the closing brace; a repeated key overwrites. */
  function ReadMembers(s: string, sofar: map<string, Value>): (r: Read<map<string, Value>>)
    ensures r.Got? ==> |r.rest| < |s|
    decreases |s|, 1
  {
    if s == "" || s[0] != '\"' then Bad
    else
      var key := ReadString(s[1..]);
      if key.Bad? then Bad
      else
        var t := SkipSpace(key.rest);
        if t == "" || t[0] != ':' then Bad
        else
          var val := ReadValue(SkipSpace(t[1..]));
          if val.Bad? then Bad
          else
            var m := sofar[key.value := val.value];
            var u := SkipSpace(val.rest);
            if u == "" then Bad
            else if u[0] == '}' then Got(m, u[1..])
            else if u[0] == ',' then ReadMembers(SkipSpace(u[1..]), m)
            else Bad
  }

  /** The rest of a string, after its opening quotation mark. */
  function ReadString(s: string): (r: Read<string>)
    ensures r.Got? ==> |r.rest| < |s|
  {
    if s == "" then Bad
    else if s[0] == '\"' then Got("", s[1..])
    else if s[0] < ' ' then Bad
    else
      var c := if s[0] == '\\' then ReadEscape(s[1..]) else Got(s[0], s[1..]);
      if c.Bad? then Bad
      else
        var tail := ReadString(c.rest);
        if tail.Got? then Got([c.value] + tail.value, tail.rest) else Bad
  }

  /** The rest of an escape, after its reverse solidus. */
  function ReadEscape(s: string): (r: Read<char>)
    ensures r.Got? ==> |r.rest| < |s|
  {
    if s == "" then Bad
    else if s[0] in "\"\\/" then Got(s[0], s[1..])
    else if s[0] == 'b' then Got(8 as char, s[1..])
    else if s[0] == 'f' then Got(12 as char, s[1..])
    else if s[0] == 'n' then Got('\n', s[1..])
    else if s[0] == 'r' then Got('\r', s[1..])
    else if s[0] == 't' then Got('\t', s[1..])
    else if s[0] == 'u' then ReadUnicode(s[1..])
    else Bad
  }

  /** Four hexadecimal digits, or a surrogate pair of two such escapes. */
  function ReadUnicode(s: string): (r: Read<char>)
    ensures r.Got? ==> |r.rest| < |s|
  {
    var hi := Hex4(s);
    if hi.None? then Bad
    else if hi.value < 0xD800 || 0xE000 <= hi.value then Got(hi.value as char, s[4..])
    else if hi.value < 0xDC00 && "\\u" <= s[4..] then
      var lo := Hex4(s[6..]);
      if lo.Some? && 0xDC00 <= lo.value < 0xE000 then
        Got((0x10000 + (hi.value - 0xD800) * 0x400 + (lo.value - 0xDC00)) as char, s[10..])
      else Bad
    else Bad
  }

  function Hex4(s: string): (r: Option<int>)
    ensures r.Some? ==> |s| >= 4 && 0 <= r.value < 0x10000
  {
    if |s| < 4 || exists i :: 0 <= i < 4 && HexValue(s[i]).None? then None
    else
      var hi, lo := HexValue(s[0]).value * 16 + HexValue(s[1]).value, HexValue(s[2]).value * 16 + HexValue(s[3]).value;
      Some(hi * 256 + lo)
  }

  function HexValue(c: char): (r: Option<int>)
    ensures r.Some? ==> 0 <= r.value < 16
  {
    if '0' <= c <= '9' then Some(c as int - '0' as int)
    else if 'a' <= c <= 'f' then Some(c as int - 'a' as int + 10)
    else if 'A' <= c <= 'F' then Some(c as int - 'A' as int + 10)
    else None
  }

  predicate IsDigit(c: char) {
    '0' <= c <= '9'
  }

  function DigitValue(c: char): nat
    requires IsDigit(c)
  {
    c as int - '0' as int
  }

  /** A text that cannot lengthen an integer in front of it. */
  predicate EndsInt(s: string) {
    s == "" || (!IsDigit(s[0]) && s[0] !in ".eE")
  }

  /** An optional minus, then 0 or a digit run without leading zero; a fraction or exponent is refused. */
  function ReadInt(s: string): (r: Read<Value>)
    ensures r.Got? ==> |r.rest| < |s|
  {
    var negative := s != "" && s[0] == '-';
    var t := if negative then s[1..] else s;
    var run := DigitRun(t);
    var len := if run > 0 && t[0] == '0' then 1 else run;
    if len == 0 || (t[len..] != "" && t[len] in ".eE") then Bad
    else
      var n: int := DigitsValue(t[..len]);
      Got(Num(if negative then -n else n), t[len..])
  }

  /** Length of the longest digit prefix. */
  function DigitRun(s: string): (n: nat)
    ensures n <= |s| && forall i :: 0 <= i < n ==> IsDigit(s[i])
  {
    if s != "" && IsDigit(s[0]) then 1 + DigitRun(s[1..]) else 0
  }

  function DigitsValue(s: string): nat
    requires forall i :: 0 <= i < |s| ==> IsDigit(s[i])
  {
    if s == "" then 0 else DigitsValue(s[..|s| - 1]) * 10 + DigitValue(s[|s| - 1])
  }
}
