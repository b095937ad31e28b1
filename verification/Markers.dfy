/** The two recursive scans for credential-like keys. */
module Markers {
  import opened Json
  import opened Prelude

  const SECRET_MARKERS: set<string> :=
    {"api_key", "apikey", "password", "passwd", "secret", "token", "authorization", "private_key"}

  const FORBIDDEN_MARKERS: set<string> := SECRET_MARKERS + {"cookie"}

  /**
   * `str.lower`, as far as it can produce ASCII text: besides A-Z, only U+212A (Kelvin sign) has an
   * ASCII lower case, and U+0130 lowers to an i followed by U+0307. All other characters stay
   * outside ASCII, where no marker has a character, so the model leaves them as they are.
   */
  function Lower(s: string): string {
    if s == "" then "" else LowerChar(s[0]) + Lower(s[1..])
  }

  function LowerChar(c: char): string {
    if 'A' <= c <= 'Z' then [(c as int + 32) as char]
    else if c as int == 0x212A then "k"
    else if c as int == 0x130 then ['i', 0x307 as char]
    else [c]
  }

  /** `s.replace("-", "_")` */
  function Underscored(s: string): string {
    seq(|s|, i requires 0 <= i < |s| => if s[i] == '-' then '_' else s[i])
  }

  /** The key test of `_contains_secret_like_key`. */
  predicate SecretKey(key: string) {
    Lower(key) in SECRET_MARKERS
  }

  /** The key test of `_contains_forbidden_material`. */
  predicate ForbiddenKey(key: string) {
    Underscored(Lower(key)) in FORBIDDEN_MARKERS
  }

  /** The scan itself: dicts and lists are searched, everything else is clean. */
  predicate ContainsKey(marked: string -> bool, v: Value)
    decreases v
  {
    match v
    case Map(m) => exists k :: k in m && (marked(k) || ContainsKey(marked, m[k]))
    case List(items) => exists i :: 0 <= i < |items| && ContainsKey(marked, items[i])
    case _ => false
  }

  /** Lower-case ASCII letters are left alone. */
  lemma {:induction false} LowerFixed(s: string)
    requires forall i :: 0 <= i < |s| ==> 'a' <= s[i] <= 'z'
    ensures Lower(s) == s
  {
    if s != "" {
      LowerFixed(s[1..]);
      assert s == [s[0]] + s[1..];
    }
  }

  // ----- What the key tests decide

  /** Markers are spelled with lower-case ASCII letters and underscores. */
  ghost predicate MarkerText(m: string) {
    forall i :: 0 <= i < |m| ==> 'a' <= m[i] <= 'z' || m[i] == '_'
  }

  /** A character that the key test reads as the marker character `m`. */
  predicate Varies(c: char, m: char, hyphens: bool) {
    c == m || ('a' <= m <= 'z' && c as int == m as int - 32) || (m == 'k' && c as int == 0x212A)
    || (hyphens && m == '_' && c == '-')
  }

  /** The key is the marker up to the case of its letters and, if so asked, hyphens for underscores. */
  predicate Spells(key: string, m: string, hyphens: bool) {
    |key| == |m| && forall i :: 0 <= i < |m| ==> Varies(key[i], m[i], hyphens)
  }

  function Normalised(key: string, hyphens: bool): string {
    if hyphens then Underscored(Lower(key)) else Lower(key)
  }

  lemma {:induction false} NormalisedExact(key: string, m: string, hyphens: bool)
    requires MarkerText(m)
    ensures Normalised(key, hyphens) == m <==> Spells(key, m, hyphens)
  {
    if key != "" && m != "" {
      NormalisedHead(key, hyphens);
      NormalisedExact(key[1..], m[1..], hyphens);
      HeadVaries(key[0], m[0], hyphens);
      SpellsHead(key, m, hyphens);
      hide Normalised, NormalisedChar, Varies, Spells;
      ConsEquals(NormalisedChar(key[0], hyphens), Normalised(key[1..], hyphens), m);
    } else if key != "" {
      NormalisedHead(key, hyphens);
      HeadVaries(key[0], 'a', hyphens);
      hide Normalised, NormalisedChar;
    }
  }

  lemma SpellsHead(key: string, m: string, hyphens: bool)
    requires key != "" && m != ""
    ensures Spells(key, m, hyphens) <==> Varies(key[0], m[0], hyphens) && Spells(key[1..], m[1..], hyphens)
  {
    hide Varies;
    if Varies(key[0], m[0], hyphens) && Spells(key[1..], m[1..], hyphens) {
      forall i | 0 <= i < |m| ensures Varies(key[i], m[i], hyphens) {
        if i > 0 {
          assert key[i] == key[1..][i - 1] && m[i] == m[1..][i - 1];
        }
      }
    }
    if Spells(key, m, hyphens) {
      forall i | 0 <= i < |m[1..]| ensures Varies(key[1..][i], m[1..][i], hyphens) {
        assert key[1..][i] == key[i + 1] && m[1..][i] == m[i + 1];
      }
    }
  }

  lemma ConsEquals(head: string, tail: string, m: string)
    requires MarkerText(m) && m != ""
    requires |head| == 1 || (|head| == 2 && head[1] as int == 0x307)
    ensures head + tail == m <==> head == [m[0]] && tail == m[1..]
  {
    assert m == [m[0]] + m[1..];
    if |head| == 2 {
      assert (head + tail)[1] == head[1];
    } else {
      assert (head + tail)[0] == head[0] && (head + tail)[1..] == tail;
    }
  }

  function NormalisedChar(c: char, hyphens: bool): string {
    if hyphens then Underscored(LowerChar(c)) else LowerChar(c)
  }

  lemma NormalisedHead(key: string, hyphens: bool)
    requires key != ""
    ensures Normalised(key, hyphens) == NormalisedChar(key[0], hyphens) + Normalised(key[1..], hyphens)
  {
    hide LowerChar;
    var a, b := LowerChar(key[0]), Lower(key[1..]);
    assert Underscored(a + b) == Underscored(a) + Underscored(b);
  }

  lemma HeadVaries(c: char, m: char, hyphens: bool)
    requires 'a' <= m <= 'z' || m == '_'
    ensures NormalisedChar(c, hyphens) == [m] <==> Varies(c, m, hyphens)
    ensures var s := NormalisedChar(c, hyphens);
            |s| == 1 || (|s| == 2 && s[1] as int == 0x307)
  {
    var s := NormalisedChar(c, hyphens);
    assert s == [m] <==> |s| == 1 && s[0] == m;
  }

  lemma MarkersAreTexts(m: string)
    requires m in FORBIDDEN_MARKERS
    ensures MarkerText(m)
  {
  }

  /** `_contains_secret_like_key` refuses exactly the case variants of its markers. */
  lemma SecretKeyExact(key: string)
    ensures SecretKey(key) <==>
            exists m :: m in {"api_key", "apikey", "password", "passwd", "secret", "token", "authorization",
                              "private_key"} && Spells(key, m, false)
  {
    forall m | m in SECRET_MARKERS ensures Lower(key) == m <==> Spells(key, m, false) {
      MarkersAreTexts(m);
      NormalisedExact(key, m, false);
    }
    hide Lower, Spells;
  }

  /** `_contains_forbidden_material` also refuses them with hyphens for underscores. */
  lemma ForbiddenKeyExact(key: string)
    ensures ForbiddenKey(key) <==>
            exists m :: m in {"api_key", "apikey", "password", "passwd", "secret", "token", "authorization",
                              "private_key", "cookie"} && Spells(key, m, true)
  {
    forall m | m in FORBIDDEN_MARKERS ensures Underscored(Lower(key)) == m <==> Spells(key, m, true) {
      MarkersAreTexts(m);
      NormalisedExact(key, m, true);
    }
    hide Lower, Spells, Underscored;
  }

  // ----- What the scan decides

  /** One step down into a value: a dict member or a list item. */
  datatype Step = Member(key: string) | Item(index: nat)

  /** The value at the end of a path, if the path exists. */
  ghost function At(v: Value, path: seq<Step>): Option<Value>
    decreases |path|
  {
    if path == [] then Some(v)
    else
      match path[0]
      case Member(k) => if v.Map? && k in v.m then At(v.m[k], path[1..]) else None
      case Item(i) => if v.List? && i < |v.items| then At(v.items[i], path[1..]) else None
  }

  /** At the end of `path` lies a dict with a marked key. */
  ghost predicate MarkedAt(marked: string -> bool, v: Value, path: seq<Step>) {
    var w := At(v, path);
    w.Some? && w.value.Map? && exists k :: k in w.value.m && marked(k)
  }

  /** The scan reports a value exactly when some dict in it, at any depth, has a marked key. */
  lemma ScanIsExact(marked: string -> bool, v: Value)
    ensures ContainsKey(marked, v) <==> exists path :: MarkedAt(marked, v, path)
  {
    if ContainsKey(marked, v) {
      var path := ScanFinds(marked, v);
    }
    if path :| MarkedAt(marked, v, path) {
      ScanSees(marked, v, path);
    }
  }

  lemma {:induction false} ScanFinds(marked: string -> bool, v: Value) returns (path: seq<Step>)
    requires ContainsKey(marked, v)
    ensures MarkedAt(marked, v, path)
    decreases v
  {
    if v.Map? {
      var k :| k in v.m && (marked(k) || ContainsKey(marked, v.m[k]));
      if marked(k) {
        path := [];
      } else {
        var tail := ScanFinds(marked, v.m[k]);
        path := [Member(k)] + tail;
        assert path[1..] == tail;
      }
    } else {
      var i :| 0 <= i < |v.items| && ContainsKey(marked, v.items[i]);
      var tail := ScanFinds(marked, v.items[i]);
      path := [Item(i)] + tail;
      assert path[1..] == tail;
    }
  }

  lemma {:induction false} ScanSees(marked: string -> bool, v: Value, path: seq<Step>)
    requires MarkedAt(marked, v, path)
    ensures ContainsKey(marked, v)
    decreases |path|
  {
    if path != [] {
      match path[0]
      case Member(k) => ScanSees(marked, v.m[k], path[1..]);
      case Item(i) => ScanSees(marked, v.items[i], path[1..]);
    }
  }
}
