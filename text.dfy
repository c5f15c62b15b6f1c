/** The string operations the catalogue rules use: `toLowerCase`, `includes`,
    `endsWith`, `trim`, `split`/`join`, `parseInt` on digits, and the two
    `replace` forms of the frontends. Strings are sequences of UTF-16 code units. */
module Text {
  import Lists

  // ---------------------------------------------------------------- case

  /** `toLowerCase` on one code unit, for the letters of the menu's languages that
      map to a single code unit: A-Z, the Latin-1 capitals (not the multiplication
      sign) and the Turkish Ğ and Ş. */
  function LowerChar(c: char): char {
    if 'A' <= c <= 'Z' || ('\U{C0}' <= c <= '\U{DE}' && c != '\U{D7}') then (c as int + 32) as char
    else if c == '\U{11E}' || c == '\U{15E}' then (c as int + 1) as char
    else c
  }

  /** `s.toLowerCase()` */
  function Lower(s: string): (r: string)
    ensures |r| == |s|
    ensures forall i :: 0 <= i < |s| ==> r[i] == LowerChar(s[i])
  {
    seq(|s|, i requires 0 <= i < |s| => LowerChar(s[i]))
  }

  lemma LowerIdempotent(s: string)
    ensures Lower(Lower(s)) == Lower(s)
  {
  }

  lemma LowerSlice(s: string, a: nat, b: nat)
    requires a <= b <= |s|
    ensures Lower(s[a..b]) == Lower(s)[a..b]
  {
  }

  // ---------------------------------------------------------------- search

  /** `q` occurs in `s` starting at position `i`. */
  predicate OccursAt(s: string, q: string, i: int) {
    0 <= i && i + |q| <= |s| && s[i..i + |q|] == q
  }

  /** `s.includes(q)`: `q` occurs in `s` at some position. */
  predicate Contains(s: string, q: string)
    decreases |s|
  {
    |q| <= |s| && (s[..|q|] == q || Contains(s[1..], q))
  }

  /** `Contains` holds exactly when `q` occurs at some position of `s`. */
  lemma ContainsIff(s: string, q: string)
    ensures Contains(s, q) <==> exists i :: OccursAt(s, q, i)
  {
    if Contains(s, q) {
      ContainsFound(s, q);
    }
    if exists i :: OccursAt(s, q, i) {
      var i :| OccursAt(s, q, i);
      OccursContained(s, q, i);
    }
  }

  lemma {:induction false} ContainsFound(s: string, q: string)
    requires Contains(s, q)
    ensures exists i :: OccursAt(s, q, i)
    decreases |s|
  {
    if s[..|q|] == q {
      assert OccursAt(s, q, 0);
    } else {
      ContainsFound(s[1..], q);
      var i :| OccursAt(s[1..], q, i);
      assert s[i + 1..i + 1 + |q|] == s[1..][i..i + |q|];
      assert OccursAt(s, q, i + 1);
    }
  }

  lemma {:induction false} OccursContained(s: string, q: string, i: int)
    requires OccursAt(s, q, i)
    ensures Contains(s, q)
    decreases i
  {
    if i > 0 {
      var t := s[1..];
      assert t[i - 1..i - 1 + |q|] == s[i..i + |q|];
      OccursContained(t, q, i - 1);
    }
  }

  /** `s.endsWith(suffix)` */
  predicate EndsWith(s: string, suffix: string) {
    |suffix| <= |s| && s[|s| - |suffix|..] == suffix
  }

  /** The position of the first `c` in `s`. */
  function IndexOf(s: string, c: char): (i: nat)
    requires c in s
    ensures i < |s| && s[i] == c && c !in s[..i]
  {
    if s[0] == c then 0 else 1 + IndexOf(s[1..], c)
  }

  // ---------------------------------------------------------------- trim

  /** The code units `String.prototype.trim` removes: ECMAScript WhiteSpace and
      LineTerminator. */
  predicate IsSpace(c: char) {
    c == '\t' || c == '\n' || c == '\U{B}' || c == '\U{C}' || c == '\r' || c == ' '
    || c == '\U{A0}' || c == '\U{1680}' || ('\U{2000}' <= c <= '\U{200A}')
    || c == '\U{2028}' || c == '\U{2029}' || c == '\U{202F}' || c == '\U{205F}'
    || c == '\U{3000}' || c == '\U{FEFF}'
  }

  /** Neither end of `s` is white space. */
  predicate IsTrimmed(s: string) {
    s == [] || (!IsSpace(s[0]) && !IsSpace(s[|s| - 1]))
  }

  function TrimStart(s: string): (r: string)
    ensures |r| <= |s| && r == s[|s| - |r|..]
    ensures r == [] || !IsSpace(r[0])
    ensures forall i :: 0 <= i < |s| - |r| ==> IsSpace(s[i])
  {
    if s != [] && IsSpace(s[0]) then TrimStart(s[1..]) else s
  }

  function TrimEnd(s: string): (r: string)
    ensures |r| <= |s| && r == s[..|r|]
    ensures r == [] || !IsSpace(r[|r| - 1])
    ensures forall i :: |r| <= i < |s| ==> IsSpace(s[i])
  {
    if s != [] && IsSpace(s[|s| - 1]) then TrimEnd(s[..|s| - 1]) else s
  }

  /** `r` is the slice of `s` at `a`, and everything of `s` outside it is white space. */
  predicate TrimWindow(s: string, r: string, a: int) {
    0 <= a && a + |r| <= |s| && r == s[a..a + |r|]
    && (forall i :: 0 <= i < a ==> IsSpace(s[i]))
    && (forall i :: a + |r| <= i < |s| ==> IsSpace(s[i]))
  }

  /** `s.trim()`: the longest slice of `s` with no white space at either end,
      obtained by dropping only white space. */
  function Trim(s: string): (r: string)
    ensures IsTrimmed(r)
    ensures exists a :: TrimWindow(s, r, a)
  {
    var t := TrimStart(s);
    var r := TrimEnd(t);
    assert TrimWindow(s, r, |s| - |t|);
    r
  }

  lemma TrimTrimmed(s: string)
    requires IsTrimmed(s)
    ensures Trim(s) == s
  {
  }

  /** White space in front of a string does not survive trimming. */
  lemma TrimDropsLeadingSpace(led: string, s: string)
    requires |led| > 0 && IsSpace(led[0]) && led[1..] == s
    ensures Trim(led) == Trim(s)
  {
    assert TrimStart(led) == TrimStart(s);
  }

  /** A slice of a string holds no code unit the string does not hold. */
  lemma SliceKeepsAbsent(s: string, a: nat, b: nat, c: char)
    requires a <= b <= |s| && c !in s
    ensures c !in s[a..b]
  {
  }

  lemma TrimKeepsAbsent(parts: seq<string>, c: char)
    requires forall i :: 0 <= i < |parts| ==> c !in parts[i]
    ensures forall i :: 0 <= i < |parts| ==> c !in Lists.Map(parts, Trim)[i]
  {
    forall i | 0 <= i < |parts| ensures c !in Lists.Map(parts, Trim)[i] {
      var p := parts[i];
      var t := Trim(p);
      var a :| TrimWindow(p, t, a);
      SliceKeepsAbsent(p, a, a + |t|, c);
    }
  }

  // ---------------------------------------------------------------- split / join

  /** `s.split(sep)` for a one-character separator. */
  function Split(s: string, sep: char): (parts: seq<string>)
    ensures |parts| >= 1
    ensures forall i :: 0 <= i < |parts| ==> sep !in parts[i]
    decreases |s|
  {
    if sep !in s then [s]
    else
      var i := IndexOf(s, sep);
      [s[..i]] + Split(s[i + 1..], sep)
  }

  /** `parts.join(sep)` */
  function Join(parts: seq<string>, sep: string): string {
    if |parts| == 0 then ""
    else if |parts| == 1 then parts[0]
    else parts[0] + sep + Join(parts[1..], sep)
  }

  /** Splitting and joining again with the same separator gives the input back. */
  lemma {:induction false} SplitJoin(s: string, sep: char)
    ensures Join(Split(s, sep), [sep]) == s
    decreases |s|
  {
    if sep in s {
      var i := IndexOf(s, sep);
      var rest := Split(s[i + 1..], sep);
      JoinCons(s[..i], rest, [sep]);
      SplitJoin(s[i + 1..], sep);
      assert s == s[..i] + [sep] + s[i + 1..];
    }
  }

  /** Joining a list with a head puts the separator after the head. */
  lemma JoinCons(head: string, rest: seq<string>, sep: string)
    requires |rest| >= 1
    ensures Join([head] + rest, sep) == head + sep + Join(rest, sep)
  {
    assert ([head] + rest)[1..] == rest;
  }

  /** Joining comma-free parts and splitting again gives the parts back. */
  lemma {:induction false} JoinSplit(parts: seq<string>, sep: char)
    requires |parts| >= 1
    requires forall i :: 0 <= i < |parts| ==> sep !in parts[i]
    ensures Split(Join(parts, [sep]), sep) == parts
  {
    var s := Join(parts, [sep]);
    if |parts| == 1 {
    } else {
      var rest := Join(parts[1..], [sep]);
      assert s == parts[0] + [sep] + rest;
      assert s[|parts[0]|] == sep;
      assert s[..|parts[0]|] == parts[0];
      assert IndexOf(s, sep) == |parts[0]|;
      assert s[|parts[0]| + 1..] == rest;
      JoinSplit(parts[1..], sep);
    }
  }

  // ---------------------------------------------------------------- comma lists

  /** The space-after-comma form `items.join(', ')` is the comma join of the
      items with a space put in front of every item but the first. */
  function SpaceLed(items: seq<string>): (r: seq<string>)
    ensures |r| == |items|
    ensures |items| > 0 ==> r[0] == items[0]
    ensures forall i :: 1 <= i < |items| ==> r[i] == " " + items[i]
  {
    if |items| <= 1 then items else [items[0]] + Map1Space(items[1..])
  }

  function Map1Space(items: seq<string>): (r: seq<string>)
    ensures |r| == |items|
    ensures forall i :: 0 <= i < |items| ==> r[i] == " " + items[i]
  {
    if items == [] then [] else [" " + items[0]] + Map1Space(items[1..])
  }

  lemma {:induction false} JoinCommaSpace(items: seq<string>)
    ensures Join(items, ", ") == Join(SpaceLed(items), ",")
  {
    if |items| >= 2 {
      var tail := items[1..];
      var led := SpaceLed(items);
      JoinCommaSpaceTail(tail);
      assert led[0] == items[0] && led[1..] == Map1Space(tail);
      calc {
        Join(items, ", ");
        items[0] + ", " + Join(tail, ", ");
        items[0] + (", " + Join(tail, ", "));
        items[0] + ("," + Join(Map1Space(tail), ","));
        items[0] + "," + Join(led[1..], ",");
        Join(led, ",");
      }
    }
  }

  lemma {:induction false} JoinCommaSpaceTail(tail: seq<string>)
    requires |tail| >= 1
    ensures ", " + Join(tail, ", ") == "," + Join(Map1Space(tail), ",")
    decreases |tail|
  {
    var spaced := Map1Space(tail);
    if |tail| == 1 {
      assert spaced == [" " + tail[0]];
      assert ", " + tail[0] == "," + (" " + tail[0]);
    } else {
      JoinCommaSpaceTail(tail[1..]);
      assert spaced[0] == " " + tail[0] && spaced[1..] == Map1Space(tail[1..]);
      calc {
        ", " + Join(tail, ", ");
        ", " + (tail[0] + ", " + Join(tail[1..], ", "));
        (", " + tail[0]) + (", " + Join(tail[1..], ", "));
        (", " + tail[0]) + ("," + Join(Map1Space(tail[1..]), ","));
        { assert ", " + tail[0] == "," + (" " + tail[0]); }
        "," + ((" " + tail[0]) + "," + Join(spaced[1..], ","));
        "," + Join(spaced, ",");
      }
    }
  }

  predicate NonEmpty(s: string) { s != "" }

  /** The allergen and tag fields of the product form: `field ? field.split(',')
      .map(s => s.trim()).filter(Boolean) : []`. */
  function ParseList(field: string): (items: seq<string>)
    ensures field == "" ==> items == []
    ensures forall i :: 0 <= i < |items| ==> items[i] != "" && IsTrimmed(items[i]) && ',' !in items[i]
    ensures field != "" ==> Lists.IsSubseq(items, Lists.Map(Split(field, ','), Trim))
    ensures field != "" ==>
      forall x :: multiset(items)[x] == (if x != "" then multiset(Lists.Map(Split(field, ','), Trim))[x] else 0)
  {
    if field == "" then []
    else
      var pieces := Lists.Map(Split(field, ','), Trim);
      TrimKeepsAbsent(Split(field, ','), ',');
      Lists.FilterIsSubseq(pieces, NonEmpty);
      Lists.FilterMultiset(pieces, NonEmpty);
      Lists.Filter(pieces, NonEmpty)
  }

  /** The edit form shows a saved list as `items.join(', ')`; parsing that text
      gives the same list back whenever every item is non-empty, trimmed and free
      of commas. */
  lemma ParseJoinRoundTrip(items: seq<string>)
    requires forall i :: 0 <= i < |items| ==> items[i] != "" && IsTrimmed(items[i]) && ',' !in items[i]
    ensures ParseList(Join(items, ", ")) == items
  {
    if items != [] {
      var field := Join(items, ", ");
      JoinHasFirst(items, ", ");
      assert field != "";
      SplitCommaSpace(items);
      TrimSpaceLed(items);
      Lists.FilterAll(items, NonEmpty);
    }
  }

  /** Splitting `items.join(', ')` at the commas gives the items, each but the
      first with its leading space. */
  lemma SplitCommaSpace(items: seq<string>)
    requires |items| >= 1
    requires forall i :: 0 <= i < |items| ==> ',' !in items[i]
    ensures Split(Join(items, ", "), ',') == SpaceLed(items)
  {
    var led := SpaceLed(items);
    JoinCommaSpace(items);
    forall i | 0 <= i < |led| ensures ',' !in led[i] {
      if i > 0 {
        assert led[i] == " " + items[i];
      }
    }
    JoinSplit(led, ',');
  }

  /** Trimming the space-led pieces gives back trimmed items. */
  lemma TrimSpaceLed(items: seq<string>)
    requires forall i :: 0 <= i < |items| ==> IsTrimmed(items[i])
    ensures Lists.Map(SpaceLed(items), Trim) == items
  {
    var led := SpaceLed(items);
    var trimmed := Lists.Map(led, Trim);
    forall i | 0 <= i < |led| ensures trimmed[i] == items[i] {
      TrimSpaceLedAt(items, i);
    }
  }

  lemma TrimSpaceLedAt(items: seq<string>, i: int)
    requires 0 <= i < |items| && IsTrimmed(items[i])
    ensures Trim(SpaceLed(items)[i]) == items[i]
  {
    if i == 0 {
      TrimTrimmed(items[0]);
    } else {
      TrimLed(SpaceLed(items)[i], items[i]);
    }
  }

  /** A trimmed item with a space put in front trims back to the item. */
  lemma TrimLed(led: string, x: string)
    requires IsTrimmed(x) && led == " " + x
    ensures Trim(led) == x
  {
    assert led[1..] == x;
    TrimTrimmed(x);
    TrimDropsLeadingSpace(led, x);
  }

  lemma {:induction false} JoinHasFirst(parts: seq<string>, sep: string)
    requires |parts| >= 1
    ensures |Join(parts, sep)| >= |parts[0]|
  {
  }

  // ---------------------------------------------------------------- digits

  predicate IsDigit(c: char) { '0' <= c <= '9' }

  /** `s.replace(/\D/g, '')`: only the decimal digits of `s`, in order. */
  function KeepDigits(s: string): (r: string)
    ensures forall i :: 0 <= i < |r| ==> IsDigit(r[i])
    ensures forall x :: multiset(r)[x] == (if IsDigit(x) then multiset(s)[x] else 0)
  {
    Lists.FilterMultiset(s, IsDigit);
    Lists.Filter(s, IsDigit)
  }

  /** The digits keep their order: nothing is reordered or duplicated. */
  lemma KeepDigitsSubseq(s: string)
    ensures Lists.IsSubseq(KeepDigits(s), s)
  {
    Lists.FilterIsSubseq(s, IsDigit);
  }

  /** A number written only with digits is left as it is. */
  lemma KeepDigitsOfDigits(s: string)
    requires forall i :: 0 <= i < |s| ==> IsDigit(s[i])
    ensures KeepDigits(s) == s
  {
    Lists.FilterAll(s, IsDigit);
  }

  lemma KeepDigitsIdempotent(s: string)
    ensures KeepDigits(KeepDigits(s)) == KeepDigits(s)
  {
    Lists.FilterIdempotent(s, IsDigit);
  }

  /** The value of a run of decimal digits, as `parseInt` reads it. */
  function DigitsValue(ds: string): nat
    requires forall i :: 0 <= i < |ds| ==> IsDigit(ds[i])
  {
    if ds == [] then 0
    else
      assert IsDigit(ds[|ds| - 1]);
      DigitsValue(ds[..|ds| - 1]) * 10 + (ds[|ds| - 1] as int - '0' as int)
  }

  /** `parseInt(String(n)) == n` */
  lemma {:induction false} DecimalRoundTrip(n: nat)
    ensures DigitsValue(DecimalText(n)) == n
  {
    if n >= 10 {
      DecimalRoundTrip(n / 10);
      var d := DecimalText(n);
      assert d[..|d| - 1] == DecimalText(n / 10);
    }
  }

  function DecimalText(n: nat): (r: string)
    ensures |r| >= 1
    ensures forall i :: 0 <= i < |r| ==> IsDigit(r[i])
  {
    if n < 10 then [('0' as int + n) as char]
    else DecimalText(n / 10) + [('0' as int + n % 10) as char]
  }

  // ---------------------------------------------------------------- replace

  /** `s.replace(c, '')` with a one-character string pattern: only the first
      occurrence is removed. */
  function RemoveFirst(s: string, c: char): (r: string)
    ensures c !in s ==> r == s
    ensures c in s ==> exists i :: 0 <= i < |s| && s[i] == c && c !in s[..i] && r == s[..i] + s[i + 1..]
    ensures multiset(r) == multiset(s) - multiset{c}
  {
    if c in s then
      var i := IndexOf(s, c);
      assert s == s[..i] + [c] + s[i + 1..];
      s[..i] + s[i + 1..]
    else s
  }
}
