/** The encoding is uniquely decodable: the reader inverts it on every value. */
module JsonRoundTrip {
  import opened Prelude
  import opened Ordering
  import opened Json

  // ----- Integers

  lemma {:induction false} NatTextDigits(n: nat)
    ensures forall i :: 0 <= i < |NatText(n)| ==> IsDigit(NatText(n)[i])
    ensures DigitsValue(NatText(n)) == n
    ensures NatText(n)[0] == '0' <==> n == 0
  {
    if n >= 10 {
      NatTextDigits(n / 10);
      var t := NatText(n);
      assert t[..|t| - 1] == NatText(n / 10);
      assert t[0] == NatText(n / 10)[0];
    } else {
      var t := NatText(n);
      assert t[..|t| - 1] == "";
    }
  }

  lemma {:induction false} DigitRunAll(a: string, b: string)
    requires forall i :: 0 <= i < |a| ==> IsDigit(a[i])
    requires b == "" || !IsDigit(b[0])
    ensures DigitRun(a + b) == |a|
  {
    if a == "" {
      assert a + b == b;
    } else {
      assert (a + b)[1..] == a[1..] + b;
      DigitRunAll(a[1..], b);
    }
  }

  lemma ReadsNat(t: string, digits: string, n: nat, rest: string)
    requires digits == NatText(n) && t == digits + rest && EndsInt(rest)
    ensures DigitRun(t) == |digits| && t[..|digits|] == digits && t[|digits|..] == rest
    ensures t[0] == digits[0] && (digits[0] == '0' ==> |digits| == 1)
  {
    NatTextDigits(n);
    DigitRunAll(digits, rest);
  }

  lemma ReadsInt(n: int, rest: string)
    requires EndsInt(rest)
    ensures ReadInt(IntText(n) + rest) == Got(Num(n), rest)
  {
    hide DigitRun, DigitsValue, NatText, EndsInt;
    var abs := if n < 0 then -n else n;
    var digits := NatText(abs);
    var s, t := IntText(n) + rest, digits + rest;
    assert (if n < 0 then s[1..] else s) == t;
    ReadsNat(t, digits, abs, rest);
    NatTextDigits(abs);
    EndsIntRest(rest);
  }

  lemma EndsIntRest(rest: string)
    requires EndsInt(rest)
    ensures rest == "" || rest[0] !in ".eE"
  {
  }

  /** Decimal texts determine their integer. */
  lemma IntTextInjective(m: int, n: int)
    requires IntText(m) == IntText(n)
    ensures m == n
  {
    ReadsInt(m, "");
    ReadsInt(n, "");
  }

  // ----- Strings

  /** Every character reads back from its escape; only escapes start with a reverse solidus. */
  lemma ReadsEscape(c: char, rest: string)
    ensures Escape(c) != "" && Escape(c)[0] != '\"' && Escape(c)[0] >= ' '
    ensures Escape(c)[0] != '\\' ==> Escape(c) == [c]
    ensures Escape(c)[0] == '\\' ==> ReadEscape((Escape(c) + rest)[1..]) == Got(c, rest)
  {
    if |Escape(c)| == 6 {
      ReadsControl(c, rest);
    } else {
      hide ReadUnicode, HexDigit;
      assert (Escape(c) + rest)[|Escape(c)|..] == rest;
    }
  }

  lemma ReadsControl(c: char, rest: string)
    requires |Escape(c)| == 6
    ensures Escape(c)[0] == '\\' && ReadEscape((Escape(c) + rest)[1..]) == Got(c, rest)
  {
    var n := c as int;
    assert n < 32 && Escape(c) == "\\u00" + [HexDigit(n / 16), HexDigit(n % 16)];
    hide Escape;
    var t := "00" + [HexDigit(n / 16), HexDigit(n % 16)] + rest;
    assert (Escape(c) + rest)[1..] == ['u'] + t;
    assert (['u'] + t)[1..] == t;
    ReadsHex(n, t);
    assert t[4..] == rest;
  }

  lemma ReadsHex(n: int, t: string)
    requires 0 <= n < 32 && |t| >= 4 && t[0] == t[1] == '0' && t[2] == HexDigit(n / 16) && t[3] == HexDigit(n % 16)
    ensures Hex4(t) == Some(n)
  {
    assert HexValue(t[2]) == Some(n / 16) && HexValue(t[3]) == Some(n % 16);
    hide HexDigit;
  }

  lemma {:induction false} ReadsString(s: string, rest: string)
    ensures ReadString(EscapeAll(s) + "\"" + rest) == Got(s, rest)
  {
    var t := EscapeAll(s) + "\"" + rest;
    if s == "" {
      assert t[1..] == rest;
    } else {
      var u := EscapeAll(s[1..]) + "\"" + rest;
      assert t == Escape(s[0]) + u;
      ReadsEscape(s[0], u);
      ReadsString(s[1..], rest);
      assert s == [s[0]] + s[1..];
      hide Escape, ReadEscape, EscapeAll;
      assert Escape(s[0])[0] != '\\' ==> t[1..] == u;
    }
  }

  lemma ReadsQuoted(s: string, rest: string)
    ensures Quote(s) + rest != "" && (Quote(s) + rest)[0] == '\"'
    ensures ReadString((Quote(s) + rest)[1..]) == Got(s, rest)
  {
    assert (Quote(s) + rest)[1..] == EscapeAll(s) + "\"" + rest;
    ReadsString(s, rest);
  }

  // ----- Values

  /** No encoding starts with white space or with a closing bracket or brace. */
  lemma EncodingStarts(v: Value, rest: string)
    ensures var s := Encode(v) + rest;
            s != "" && SkipSpace(s) == s && s[0] !in "]}"
  {
    if v.Num? {
      NatTextDigits(if v.n < 0 then -v.n else v.n);
    }
  }

  /** What `ReadItems` does on a list of one item, and on a longer one. */
  lemma ReadItemsStep(s: string, x: Value, more: string, rest: string)
    ensures ReadValue(s) == Got(x, "]" + rest) ==> ReadItems(s) == Got([x], rest)
    ensures ReadValue(s) == Got(x, "," + more) && SkipSpace(more) == more && ReadItems(more).Got? ==>
              ReadItems(s) == Got([x] + ReadItems(more).value, ReadItems(more).rest)
  {
    assert ("]" + rest)[1..] == rest;
    assert ("," + more)[1..] == more;
  }

  /** What `ReadMembers` does on one member, when it is the last and when it is not. */
  lemma ReadMembersStep(k: string, body: string, x: Value, more: string, rest: string, sofar: map<string, Value>)
    requires SkipSpace(body) == body
    ensures var s := Quote(k) + (":" + body);
            && (ReadValue(body) == Got(x, "}" + rest) ==> ReadMembers(s, sofar) == Got(sofar[k := x], rest))
            && (ReadValue(body) == Got(x, "," + more) && SkipSpace(more) == more ==>
                  ReadMembers(s, sofar) == ReadMembers(more, sofar[k := x]))
  {
    ReadsQuoted(k, ":" + body);
    assert (":" + body)[1..] == body;
    assert ("}" + rest)[1..] == rest;
    assert ("," + more)[1..] == more;
  }

  lemma {:induction false} ReadsValue(v: Value, rest: string)
    requires EndsInt(rest)
    ensures ReadValue(Encode(v) + rest) == Got(v, rest)
    decreases v, 1, 0
  {
    match v
    case List(items) => ReadsList(v, rest);
    case Map(m) => ReadsMap(v, rest);
    case _ => ReadsScalar(v, rest);
  }

  lemma ReadsKeyword(rest: string)
    ensures ReadValue("null" + rest) == Got(Null, rest)
    ensures ReadValue("true" + rest) == Got(Bool(true), rest)
    ensures ReadValue("false" + rest) == Got(Bool(false), rest)
  {
    assert ("null" + rest)[4..] == rest && ("true" + rest)[4..] == rest && ("false" + rest)[5..] == rest;
  }

  lemma ReadsNumber(n: int, rest: string)
    requires EndsInt(rest)
    ensures ReadValue(IntText(n) + rest) == Got(Num(n), rest)
  {
    var s := IntText(n) + rest;
    ReadsInt(n, rest);
    NatTextDigits(if n < 0 then -n else n);
    assert s[0] == '-' || IsDigit(s[0]);
    NumberDispatch(s);
  }

  lemma NumberDispatch(s: string)
    requires s != "" && (s[0] == '-' || IsDigit(s[0]))
    ensures ReadValue(s) == ReadInt(s)
  {
    hide ReadInt, ReadString, ReadItems, ReadMembers, SkipSpace;
  }

  lemma ReadsScalar(v: Value, rest: string)
    requires EndsInt(rest) && !v.List? && !v.Map?
    ensures ReadValue(Encode(v) + rest) == Got(v, rest)
  {
    match v
    case Null => ReadsKeyword(rest);
    case Bool(b) => ReadsKeyword(rest);
    case Num(n) => ReadsNumber(n, rest);
    case Str(t) => ReadsQuoted(t, rest);
  }

  /** What `ReadValue` does after an opening bracket or brace. */
  lemma ReadOpening(t: string)
    requires t != "" && SkipSpace(t) == t
    ensures ReadValue("[" + t) ==
            if t[0] == ']' then Got(List([]), t[1..])
            else if ReadItems(t).Got? then Got(List(ReadItems(t).value), ReadItems(t).rest) else Bad
    ensures ReadValue("{" + t) ==
            if t[0] == '}' then Got(Map(map[]), t[1..])
            else if ReadMembers(t, map[]).Got? then Got(Map(ReadMembers(t, map[]).value), ReadMembers(t, map[]).rest)
            else Bad
  {
    assert ("[" + t)[1..] == t && ("{" + t)[1..] == t;
  }

  lemma {:induction false} ReadsList(v: Value, rest: string)
    requires EndsInt(rest) && v.List?
    ensures ReadValue(Encode(v) + rest) == Got(v, rest)
    decreases v, 0, |v.items| + 1
  {
    var t := EncodeItems(v, 0) + ("]" + rest);
    assert Encode(v) + rest == "[" + t;
    if v.items == [] {
      assert t[0] == ']' && t[1..] == rest && SkipSpace(t) == t;
    } else {
      ItemsStart(v, 0, "]" + rest);
      ReadsItems(v, 0, rest);
    }
    ReadOpening(t);
  }

  lemma {:induction false} ReadsMap(v: Value, rest: string)
    requires EndsInt(rest) && v.Map?
    ensures ReadValue(Encode(v) + rest) == Got(v, rest)
    decreases v, 0, |SortedSet(v.m.Keys)| + 1
  {
    hide Encode, EncodeMembers, ReadValue, ReadMembers, SkipSpace;
    var keys := SortedSet(v.m.Keys);
    MapText(v, rest);
    if keys == [] {
      EmptyMapText(v, rest);
    } else {
      MembersStart(v, keys, "}" + rest);
      ReadsMembers(v, keys, map[], rest);
      assert map[] + Selected(v.m, keys) == v.m;
    }
    ReadOpening(EncodeMembers(v, keys) + ("}" + rest));
  }

  lemma MapText(v: Value, rest: string)
    requires v.Map?
    ensures forall k :: k in SortedSet(v.m.Keys) <==> k in v.m
    ensures Encode(v) + rest == "{" + (EncodeMembers(v, SortedSet(v.m.Keys)) + ("}" + rest))
  {
    SortedSetMembers(v.m.Keys);
    hide EncodeMembers, SortedSet;
  }

  lemma EmptyMapText(v: Value, rest: string)
    requires v.Map? && SortedSet(v.m.Keys) == []
    ensures v.m == map[]
    ensures var t := EncodeMembers(v, []) + ("}" + rest);
            t != "" && t[0] == '}' && t[1..] == rest && SkipSpace(t) == t
  {
    assert v.m.Keys == {};
  }

  /** The text of some members, from its first member on. */
  lemma MembersSplit(v: Value, keys: seq<string>, tail: string)
    requires v.Map? && keys != [] && forall k :: k in keys ==> k in v.m
    ensures EncodeMembers(v, keys) + tail
            == Quote(keys[0]) + (":" + (Encode(v.m[keys[0]]) + AfterFirst(v, keys, tail)))
  {
    var q, e := Quote(keys[0]), Encode(v.m[keys[0]]);
    var more := if |keys| == 1 then "" else "," + EncodeMembers(v, keys[1..]);
    assert EncodeMembers(v, keys) == q + ":" + e + more by {
      hide Quote, Encode;
    }
    MoreThenTail(v, keys, more, tail);
    hide *;
    Regroup(q, ":", e, more, tail);
  }

  lemma MoreThenTail(v: Value, keys: seq<string>, more: string, tail: string)
    requires v.Map? && keys != [] && forall k :: k in keys ==> k in v.m
    requires more == if |keys| == 1 then "" else "," + EncodeMembers(v, keys[1..])
    ensures more + tail == AfterFirst(v, keys, tail)
  {
    hide EncodeMembers;
  }

  lemma MembersStart(v: Value, keys: seq<string>, tail: string)
    requires v.Map? && keys != [] && forall k :: k in keys ==> k in v.m
    ensures var s := EncodeMembers(v, keys) + tail;
            s != "" && s[0] == '\"' && SkipSpace(s) == s
  {
    MembersSplit(v, keys, tail);
    ReadsQuoted(keys[0], ":" + (Encode(v.m[keys[0]]) + AfterFirst(v, keys, tail)));
  }

  lemma Regroup(a: string, b: string, c: string, d: string, e: string)
    ensures a + b + c + d + e == a + (b + (c + (d + e)))
  {
  }

  /** The members a list of keys selects from a dict. */
  ghost function Selected(m: map<string, Value>, keys: seq<string>): map<string, Value>
    requires forall k :: k in keys ==> k in m
  {
    map k | k in keys :: m[k]
  }

  lemma SelectedStep(m: map<string, Value>, keys: seq<string>, sofar: map<string, Value>)
    requires keys != [] && forall k :: k in keys ==> k in m
    ensures sofar[keys[0] := m[keys[0]]] + Selected(m, keys[1..]) == sofar + Selected(m, keys)
  {
    assert keys == [keys[0]] + keys[1..];
  }

  ghost function AfterFirst(v: Value, keys: seq<string>, tail: string): string
    requires v.Map? && keys != [] && forall k :: k in keys ==> k in v.m
  {
    if |keys| == 1 then tail else "," + (EncodeMembers(v, keys[1..]) + tail)
  }

  lemma ItemsStart(v: Value, i: nat, rest: string)
    requires v.List? && i < |v.items|
    ensures var s := EncodeItems(v, i) + rest;
            s != "" && SkipSpace(s) == s && s[0] !in "]}"
  {
    var tail := if i + 1 == |v.items| then "" else "," + EncodeItems(v, i + 1);
    assert EncodeItems(v, i) + rest == Encode(v.items[i]) + (tail + rest);
    EncodingStarts(v.items[i], tail + rest);
  }

  /** The text of some items, from its first item on. */
  lemma ItemsSplit(v: Value, i: nat, tail: string)
    requires v.List? && i < |v.items|
    ensures EncodeItems(v, i) + tail
            == Encode(v.items[i]) + (if i + 1 == |v.items| then tail else "," + (EncodeItems(v, i + 1) + tail))
  {
    hide Encode;
  }

  lemma {:induction false} ReadsItems(v: Value, i: nat, rest: string)
    requires v.List? && i < |v.items|
    ensures ReadItems(EncodeItems(v, i) + ("]" + rest)) == Got(v.items[i..], rest)
    decreases v, 0, |v.items| - i
  {
    hide Encode, EncodeItems, ReadItems, ReadValue, SkipSpace;
    var s, x := EncodeItems(v, i) + ("]" + rest), v.items[i];
    ItemsSplit(v, i, "]" + rest);
    if i + 1 == |v.items| {
      assert EndsInt("]" + rest);
      hide *;
      ReadsValue(x, "]" + rest);
      ReadItemsStep(s, x, "", rest);
      assert v.items[i..] == [x];
    } else {
      var more := EncodeItems(v, i + 1) + ("]" + rest);
      assert EndsInt("," + more);
      hide *;
      ReadsValue(x, "," + more);
      ItemsStart(v, i + 1, "]" + rest);
      ReadsItems(v, i + 1, rest);
      ReadItemsStep(s, x, more, rest);
      assert v.items[i..] == [x] + v.items[i + 1..];
    }
  }

  lemma {:induction false} ReadsMembers(v: Value, keys: seq<string>, sofar: map<string, Value>, rest: string)
    requires v.Map? && keys != [] && forall k :: k in keys ==> k in v.m
    ensures ReadMembers(EncodeMembers(v, keys) + ("}" + rest), sofar)
            == Got(sofar + Selected(v.m, keys), rest)
    decreases v, 0, |keys|
  {
    hide Encode, EncodeMembers, ReadMembers, ReadValue, SkipSpace, Quote;
    var k, x := keys[0], v.m[keys[0]];
    var after := AfterFirst(v, keys, "}" + rest);
    MembersSplit(v, keys, "}" + rest);
    EncodingStarts(x, after);
    ReadsValue(x, after);
    if |keys| == 1 {
      ReadMembersStep(k, Encode(x) + after, x, "", rest, sofar);
      assert sofar[k := x] + Selected(v.m, keys[1..]) == sofar[k := x];
    } else {
      var more := EncodeMembers(v, keys[1..]) + ("}" + rest);
      MembersStart(v, keys[1..], "}" + rest);
      ReadMembersStep(k, Encode(x) + after, x, more, rest, sofar);
      ReadsMembers(v, keys[1..], sofar[k := x], rest);
    }
    SelectedStep(v.m, keys, sofar);
  }

  ghost predicate AllSpace(s: string) {
    forall i :: 0 <= i < |s| ==> IsSpace(s[i])
  }

  lemma {:induction false} SkipsSpace(a: string, b: string)
    requires AllSpace(a)
    ensures SkipSpace(a + b) == SkipSpace(b)
  {
    if a == "" {
      assert a + b == b;
    } else {
      assert (a + b)[1..] == a[1..] + b;
      SkipsSpace(a[1..], b);
    }
  }

  /** Reading an encoded value, with any white space around it, gives the value back. */
  lemma RoundTrip(v: Value, before: string, after: string)
    requires AllSpace(before) && AllSpace(after)
    ensures ReadText(before + Encode(v) + after) == Some(v)
  {
    assert before + Encode(v) + after == before + (Encode(v) + after);
    SkipsSpace(before, Encode(v) + after);
    EncodingStarts(v, after);
    ReadsValue(v, after);
    assert after + "" == after;
    SkipsSpace(after, "");
  }

  /** Two values with the same encoding are equal. */
  lemma EncodeInjective(v: Value, w: Value)
    requires Encode(v) == Encode(w)
    ensures v == w
  {
    RoundTrip(v, "", "");
    RoundTrip(w, "", "");
    assert "" + Encode(v) + "" == Encode(v) == "" + Encode(w) + "";
  }

  /** No encoding is a proper prefix of a text that continues with anything but more of a number. */
  lemma EncodePrefixFree(v: Value, w: Value, a: string, b: string)
    requires EndsInt(a) && EndsInt(b)
    requires Encode(v) + a == Encode(w) + b
    ensures v == w && a == b
  {
    ReadsValue(v, a);
    ReadsValue(w, b);
  }
}
