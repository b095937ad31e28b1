/** The exact text of `_stable_json`: separators, escapes, order of members. */
module JsonText {
  import opened Prelude
  import opened Lists
  import opened Ordering
  import opened Json

  /** `sep.join(xs)` */
  function Join(sep: string, xs: seq<string>): string {
    if xs == [] then "" else if |xs| == 1 then xs[0] else xs[0] + sep + Join(sep, xs[1..])
  }

  /** A list is its items between brackets, separated by a comma and nothing else. */
  lemma ListText(items: seq<Value>)
    ensures Encode(List(items)) == "[" + Join(",", Each(Encode, items)) + "]"
  {
    ItemsText(items, 0);
    hide Join, EncodeItems;
    assert Each(Encode, items)[0..] == Each(Encode, items);
  }

  lemma {:induction false} ItemsText(items: seq<Value>, i: nat)
    requires i <= |items|
    ensures EncodeItems(List(items), i) == Join(",", Each(Encode, items)[i..])
    decreases |items| - i
  {
    var texts := Each(Encode, items);
    if i < |items| {
      ItemsText(items, i + 1);
      assert texts[i..][0] == Encode(items[i]) && texts[i..][1..] == texts[i + 1..];
      if i + 1 < |items| {
        hide Encode, Join;
        Associate(texts[i], ",", Join(",", texts[i + 1..]));
      }
    }
  }

  lemma Associate(a: string, b: string, c: string)
    ensures a + b + c == a + (b + c)
  {
  }

  /** The members of a dict, in the order of `keys`: each is its quoted key, a colon, and its value. */
  function MemberTexts(m: map<string, Value>, keys: seq<string>): (r: seq<string>)
    requires forall k :: k in keys ==> k in m
    ensures |r| == |keys| && forall i :: 0 <= i < |keys| ==> r[i] == Quote(keys[i]) + ":" + Encode(m[keys[i]])
  {
    seq(|keys|, i requires 0 <= i < |keys| => Quote(keys[i]) + ":" + Encode(m[keys[i]]))
  }

  /** A dict is its members between braces, in the order of their keys, separated by a comma and nothing else. */
  lemma MapText(m: map<string, Value>)
    ensures (forall k :: k in SortedSet(m.Keys) <==> k in m)
    ensures Encode(Map(m)) == "{" + Join(",", MemberTexts(m, SortedSet(m.Keys))) + "}"
  {
    SortedSetMembers(m.Keys);
    MembersText(m, SortedSet(m.Keys));
    hide Join, EncodeMembers, SortedSet;
  }

  lemma {:induction false} MembersText(m: map<string, Value>, keys: seq<string>)
    requires forall k :: k in keys ==> k in m
    ensures EncodeMembers(Map(m), keys) == Join(",", MemberTexts(m, keys))
  {
    if keys != [] {
      var texts := MemberTexts(m, keys);
      MembersText(m, keys[1..]);
      assert texts[1..] == MemberTexts(m, keys[1..]);
      hide Encode, Quote, Join;
      assert EncodeMembers(Map(m), keys)
          == texts[0] + (if |keys| == 1 then "" else "," + EncodeMembers(Map(m), keys[1..]));
      Associate(texts[0], ",", Join(",", texts[1..]));
      OneJoined(",", texts);
    }
  }

  lemma OneJoined(sep: string, xs: seq<string>)
    requires xs != []
    ensures Join(sep, xs) == if |xs| == 1 then xs[0] else xs[0] + sep + Join(sep, xs[1..])
    ensures xs[0] + "" == xs[0]
  {
  }

  /** A string is its characters between quotation marks, each escaped on its own. */
  lemma {:induction false} StringText(s: string)
    ensures EscapeAll(s) == Join("", Each(Escape, s)) && Quote(s) == "\"" + Join("", Each(Escape, s)) + "\""
  {
    if s != "" {
      StringText(s[1..]);
      hide Escape;
      assert Each(Escape, s)[1..] == Each(Escape, s[1..]);
      OneJoined("", Each(Escape, s));
      assert EscapeAll(s) == Escape(s[0]) + EscapeAll(s[1..]);
      hide Join;
      assert Escape(s[0]) + "" + EscapeAll(s[1..]) == Escape(s[0]) + EscapeAll(s[1..]);
    }
  }

  /** Which characters are escaped, and how: seven have a letter, other controls a lower-case number, the rest none. */
  lemma EscapeText(c: char)
    ensures Escape('\"') == ['\\', '\"'] && Escape('\\') == ['\\', '\\']
    ensures Escape('\n') == ['\\', 'n'] && Escape('\r') == ['\\', 'r'] && Escape('\t') == ['\\', 't']
    ensures Escape(8 as char) == ['\\', 'b'] && Escape(12 as char) == ['\\', 'f']
    ensures c as int < 32 && c !in {'\n', '\r', '\t', 8 as char, 12 as char} ==>
              exists hi, lo :: hi in "01" && lo in "0123456789abcdef"
                && HexValue(hi) == Some(c as int / 16) && HexValue(lo) == Some(c as int % 16)
                && Escape(c) == ['\\', 'u', '0', '0', hi, lo]
    ensures c as int >= 32 && c != '\"' && c != '\\' ==> Escape(c) == [c]
  {
    if c as int < 32 && c !in {'\n', '\r', '\t', 8 as char, 12 as char} {
      var hi, lo := HexDigit(c as int / 16), HexDigit(c as int % 16);
      assert c as int / 16 == 0 || c as int / 16 == 1;
      assert "01"[c as int / 16] == hi;
      assert Escape(c) == ['\\', 'u', '0', '0', hi, lo];
    }
  }

  /** The keywords, and numbers that between them have every digit. */
  lemma SampleText()
    ensures Encode(Null) == "null" && Encode(Bool(true)) == "true" && Encode(Bool(false)) == "false"
    ensures Encode(Num(0)) == "0" && Encode(Num(-1)) == "-1"
    ensures Encode(Num(234)) == "234" && Encode(Num(56789)) == "56789"
  {
  }

  // ----- Dict displays

  /** The value is the dict with exactly these members. */
  ghost predicate IsDict(v: Value, fields: Fields) {
    && v.Map?
    && (forall k :: k in v.m <==> exists i :: 0 <= i < |fields| && fields[i].0 == k)
    && (forall i :: 0 <= i < |fields| ==> fields[i].0 in v.m && v.m[fields[i].0] == fields[i].1)
  }

  lemma DisplayedDict(fields: Fields)
    requires DistinctKeys(fields)
    ensures IsDict(Obj(fields), fields)
  {
    MembersKeys(fields, |fields|);
    forall i | 0 <= i < |fields| ensures fields[i].0 in Obj(fields).m && Obj(fields).m[fields[i].0] == fields[i].1 {
      FieldLookup(fields, |fields|, i);
    }
  }

  lemma {:induction false} MembersKeys(fields: Fields, n: nat)
    requires n <= |fields|
    ensures forall k :: k in Json.Members(fields, n) <==> exists i :: 0 <= i < n && fields[i].0 == k
  {
    if n > 0 {
      MembersKeys(fields, n - 1);
    }
  }

  /** A whole text: two members, displayed in the other order. */
  lemma SampleDict(x: Value, y: Value)
    ensures Encode(Obj([("b", x), ("a", y)])) == "{\"a\":" + Encode(y) + ",\"b\":" + Encode(x) + "}"
  {
    var fields: Fields := [("b", x), ("a", y)];
    var m := Obj(fields).m;
    PlainKeys();
    DisplayedDict(fields);
    assert fields[0].0 == "b" && fields[1].0 == "a";
    assert DifferFirst("a", "b", 0);
    MapText(m);
    hide Encode, Obj, Quote, SortedSet, Before, Join, DifferFirst;
    ListingIs(m.Keys, ["a", "b"]);
    TwoMembers(m);
  }

  lemma PlainKeys()
    ensures Quote("a") == "\"a\"" && Quote("b") == "\"b\""
  {
    assert "a"[1..] == "" && "b"[1..] == "";
  }

  lemma TwoMembers(m: map<string, Value>)
    requires "a" in m && "b" in m && Quote("a") == "\"a\"" && Quote("b") == "\"b\""
    ensures "{" + Join(",", MemberTexts(m, ["a", "b"])) + "}"
            == "{\"a\":" + Encode(m["a"]) + ",\"b\":" + Encode(m["b"]) + "}"
  {
    hide Encode, Quote;
    var texts := MemberTexts(m, ["a", "b"]);
    OneJoined(",", texts);
    OneJoined(",", texts[1..]);
    assert texts[0] == "\"a\"" + ":" + Encode(m["a"]) && texts[1] == "\"b\"" + ":" + Encode(m["b"]);
  }
}
