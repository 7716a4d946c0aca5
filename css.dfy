/** CSS text helpers shared by components.js and _DOM.js: the property-name
    rewrite `unCamelCase`, the rendering of style values, and the two
    declaration serialisers (`stylesCss` of components.js and `stylesAsString`
    of _DOM.js). Case is ASCII case: only 'a'..'z' and 'A'..'Z' have one. */
module Css {

  function ToUpper(c: char): char {
    if 'a' <= c <= 'z' then (c as int - 32) as char else c
  }

  function ToLower(c: char): char {
    if 'A' <= c <= 'Z' then (c as int + 32) as char else c
  }

  /** The test `char === char.toUpperCase()`: true of every character except
      the lower-case letters, so digits, `-` and other punctuation pass it. */
  predicate IsOwnUpper(c: char) {
    c == ToUpper(c)
  }

  /** What `unCamelCase` makes of one character. */
  function Rewrite(c: char): string {
    if IsOwnUpper(c) then ['-', ToLower(c)] else [c]
  }

  /** `unCamelCase`: the per-character rewrite, concatenated. No capital
      letter survives it, so the result is a lower-case CSS property name. */
  function UnCamelCase(s: string): (r: string)
    ensures forall i | 0 <= i < |r| :: !('A' <= r[i] <= 'Z')
  {
    if s == [] then [] else Rewrite(s[0]) + UnCamelCase(s[1..])
  }

  /** The number of characters of `s` that `unCamelCase` prefixes with `-`. */
  function CountOwnUpper(s: string): nat {
    if s == [] then 0 else (if IsOwnUpper(s[0]) then 1 else 0) + CountOwnUpper(s[1..])
  }

  /** Each prefixed character adds exactly one character to the output. */
  lemma {:induction false} UnCamelCaseLength(s: string)
    ensures |UnCamelCase(s)| == |s| + CountOwnUpper(s)
  {
    if s != [] {
      UnCamelCaseLength(s[1..]);
    }
  }

  /** The rewrite works character by character, so it distributes over concatenation. */
  lemma {:induction false} UnCamelCaseConcat(a: string, b: string)
    ensures UnCamelCase(a + b) == UnCamelCase(a) + UnCamelCase(b)
  {
    if a != [] {
      assert (a + b)[1..] == a[1..] + b;
      UnCamelCaseConcat(a[1..], b);
    } else {
      assert a + b == b;
    }
  }

  /** `unCamelCase` leaves a string unchanged exactly when it consists of
      lower-case letters only. */
  lemma UnCamelCaseFixedPoints(s: string)
    ensures UnCamelCase(s) == s <==> forall i | 0 <= i < |s| :: 'a' <= s[i] <= 'z'
  {
    UnCamelCaseLength(s);
    if forall i | 0 <= i < |s| :: 'a' <= s[i] <= 'z' {
      LowerOnlyFixed(s);
    } else {
      var i :| 0 <= i < |s| && !('a' <= s[i] <= 'z');
      CountPositive(s, i);
    }
  }

  lemma {:induction false} LowerOnlyFixed(s: string)
    requires forall i | 0 <= i < |s| :: 'a' <= s[i] <= 'z'
    ensures UnCamelCase(s) == s
  {
    if s != [] {
      LowerOnlyFixed(s[1..]);
    }
  }

  lemma {:induction false} CountPositive(s: string, i: nat)
    requires i < |s| && !('a' <= s[i] <= 'z')
    ensures CountOwnUpper(s) > 0
  {
    if i > 0 {
      CountPositive(s[1..], i - 1);
    }
  }

  /** Reverses `unCamelCase`: a `-` and the character after it stand for that
      character's upper-case form. */
  function ReCamel(r: string): string
    decreases |r|
  {
    if r == [] then []
    else if r[0] == '-' && |r| >= 2 then [ToUpper(r[1])] + ReCamel(r[2..])
    else [r[0]] + ReCamel(r[1..])
  }

  /** `unCamelCase` loses no information: `ReCamel` undoes it. */
  lemma {:induction false} ReCamelUnCamelCase(s: string)
    ensures ReCamel(UnCamelCase(s)) == s
  {
    if s != [] {
      var c := s[0];
      var tail := UnCamelCase(s[1..]);
      ReCamelUnCamelCase(s[1..]);
      if IsOwnUpper(c) {
        assert (['-', ToLower(c)] + tail)[2..] == tail;
        assert ToUpper(ToLower(c)) == c;
      } else {
        assert ([c] + tail)[1..] == tail;
      }
    }
  }

  /** Hence two property names that differ are never written the same way. */
  lemma UnCamelCaseInjective(a: string, b: string)
    ensures UnCamelCase(a) == UnCamelCase(b) <==> a == b
  {
    ReCamelUnCamelCase(a);
    ReCamelUnCamelCase(b);
  }

  lemma HyphenExample()
    ensures UnCamelCase("font-size") == "font--size"
  {
    Spell("font", '-', "size");
    assert "font" + ['-'] + "size" == "font-size";
    assert "font" + ['-', '-'] + "size" == "font--size";
  }

  lemma DigitExample()
    ensures UnCamelCase("h1") == "h-1"
  {
    Spell("h", '1', "");
    assert "h" + ['1'] + "" == "h1";
    assert "h" + ['-', '1'] + "" == "h-1";
  }

  lemma FontSizeExample()
    ensures UnCamelCase("fontSize") == "font-size"
  {
    Spell("font", 'S', "ize");
    assert "font" + ['S'] + "ize" == "fontSize";
    assert "font" + ['-', 's'] + "ize" == "font-size";
  }

  lemma BackgroundColorExample()
    ensures UnCamelCase("backgroundColor") == "background-color"
  {
    Spell("background", 'C', "olor");
    assert "background" + ['C'] + "olor" == "backgroundColor";
    assert "background" + ['-', 'c'] + "olor" == "background-color";
  }

  /** `unCamelCase` of a lower-case word, one rewritten character and another
      lower-case word. */
  lemma Spell(a: string, c: char, b: string)
    requires forall i | 0 <= i < |a| :: 'a' <= a[i] <= 'z'
    requires forall i | 0 <= i < |b| :: 'a' <= b[i] <= 'z'
    requires IsOwnUpper(c)
    ensures UnCamelCase(a + [c] + b) == a + ['-', ToLower(c)] + b
  {
    LowerOnlyFixed(a);
    LowerOnlyFixed(b);
    UnCamelCaseConcat(a, [c] + b);
    UnCamelCaseConcat([c], b);
    assert a + [c] + b == a + ([c] + b);
    assert UnCamelCase([c]) == Rewrite(c) + UnCamelCase([]);
  }

  // ---------------------------------------------------------------- values

  /** A style value as the caller writes it: a number or a string. */
  datatype StyleValue = Num(n: nat) | Str(s: string)

  function DigitChar(d: nat): char
    requires d < 10
  {
    ('0' as int + d) as char
  }

  /** The decimal form JavaScript gives a non-negative integer. */
  function NatToString(n: nat): string
    decreases n
  {
    if n < 10 then [DigitChar(n)] else NatToString(n / 10) + [DigitChar(n % 10)]
  }

  /** Reads a string of decimal digits back as a number. */
  function ParseDecimal(s: string): nat
    decreases |s|
  {
    if s == [] then 0
    else
      var d := s[|s| - 1] as int - '0' as int;
      ParseDecimal(s[..|s| - 1]) * 10 + (if 0 <= d < 10 then d else 0)
  }

  /** The decimal rendering is a faithful encoding of the number. */
  lemma {:induction false} NatToStringRoundTrip(n: nat)
    ensures |NatToString(n)| > 0
    ensures forall i | 0 <= i < |NatToString(n)| :: '0' <= NatToString(n)[i] <= '9'
    ensures ParseDecimal(NatToString(n)) == n
  {
    if n >= 10 {
      NatToStringRoundTrip(n / 10);
      var s := NatToString(n / 10) + [DigitChar(n % 10)];
      assert s[..|s| - 1] == NatToString(n / 10);
    }
  }

  /** `${value}`: the text of a value inside a template literal. */
  function Render(v: StyleValue): string {
    match v
    case Num(n) => NatToString(n)
    case Str(s) => s
  }

  /** components.js `setStyle`: numbers are stored as pixel lengths, strings as given. */
  function Pixels(v: StyleValue): string {
    match v
    case Num(n) => NatToString(n) + "px"
    case Str(s) => s
  }

  // ---------------------------------------------------------- serialisers

  /** `Array.prototype.join`. */
  function Join(parts: seq<string>, sep: string): string
    decreases |parts|
  {
    if |parts| == 0 then ""
    else if |parts| == 1 then parts[0]
    else Join(parts[..|parts| - 1], sep) + sep + parts[|parts| - 1]
  }

  /** One declaration without its line break: a tab, the rewritten property,
      a colon and a space, the value and a semicolon. */
  function Declaration(prop: string, value: string): string {
    "\t" + UnCamelCase(prop) + ": " + value + ";"
  }

  /** components.js `stylesCss`, one channel: every declaration followed by a
      line break when `i < arr.length`, the pieces joined by single spaces. */
  function ChannelCss(d: seq<(string, string)>): string {
    Join(ChannelParts(d), " ")
  }

  /** The pieces `stylesCss` joins for one channel. The test `i < arr.length`
      holds of every index, so every piece, the last included, ends in a line
      break. */
  function ChannelParts(d: seq<(string, string)>): (r: seq<string>)
    ensures |r| == |d|
    ensures forall i | 0 <= i < |d| :: r[i] == Declaration(d[i].0, d[i].1) + "\n"
  {
    seq(|d|, i requires 0 <= i < |d| =>
      Declaration(d[i].0, d[i].1) + (if i < |d| then "\n" else ""))
  }

  /** _DOM.js `stylesAsString`: a line break after every declaration for
      which `i < arr.length - 1`, the pieces joined by single spaces. */
  function StylesAsString(d: seq<(string, StyleValue)>): string {
    Join(AsStringParts(d), " ")
  }

  /** The test `i < arr.length` never fails: every declaration of a channel,
      the last included, ends in a line break, and a further declaration is
      added after a space. */
  lemma ChannelCssAppend(d: seq<(string, string)>, prop: string, value: string)
    ensures ChannelCss(d + [(prop, value)]) ==
      (if d == [] then "" else ChannelCss(d) + " ") + Declaration(prop, value) + "\n"
  {
    var e := d + [(prop, value)];
    var parts := ChannelParts(e);
    assert parts[..|d|] == ChannelParts(d) by {
      forall i | 0 <= i < |d| ensures parts[i] == ChannelParts(d)[i] {
        assert e[i] == d[i];
      }
    }
    if d == [] {
      assert parts == [Declaration(prop, value) + "\n"];
    }
  }

  /** In `stylesAsString` the last declaration has no line break, so adding a
      declaration puts a line break after the previously last one. */
  lemma StylesAsStringAppend(d: seq<(string, StyleValue)>, prop: string, value: StyleValue)
    ensures StylesAsString(d + [(prop, value)]) ==
      (if d == [] then "" else StylesAsString(d) + "\n ") + Declaration(prop, Render(value))
  {
    var e := d + [(prop, value)];
    var parts := AsStringParts(e);
    if d != [] {
      var before := AsStringParts(d);
      var x := Declaration(prop, Render(value));
      AsStringPartsSnoc(d, prop, value);
      JoinGrowThenAppend(before, "\n", " ", x);
      BreakThenSpace(StylesAsString(d), x);
    } else {
      var x := Declaration(prop, Render(value));
      assert parts[0] == x + "";
      assert x + "" == x;
      assert parts == [x];
    }
  }

  /** The pieces after appending a declaration: the previously last piece
      gains a line break and the new declaration comes last. */
  lemma AsStringPartsSnoc(d: seq<(string, StyleValue)>, prop: string, value: StyleValue)
    requires d != []
    ensures var before := AsStringParts(d);
      AsStringParts(d + [(prop, value)])
        == before[..|d| - 1] + [before[|d| - 1] + "\n"] + [Declaration(prop, Render(value))]
  {
    var parts := AsStringParts(d + [(prop, value)]);
    var x := Declaration(prop, Render(value));
    AsStringPartsFront(d, prop, value);
    assert parts[|d|] == x + "" == x;
    assert parts == parts[..|d|] + [parts[|d|]];
  }

  lemma BreakThenSpace(joined: string, x: string)
    ensures joined + "\n" + " " + x == joined + "\n " + x
  {
    assert joined + "\n" + " " == joined + "\n ";
  }

  /** Appending a declaration gives the previously last piece a line break. */
  lemma AsStringPartsFront(d: seq<(string, StyleValue)>, prop: string, value: StyleValue)
    requires d != []
    ensures var before := AsStringParts(d);
      AsStringParts(d + [(prop, value)])[..|d|] == before[..|d| - 1] + [before[|d| - 1] + "\n"]
  {
    var e := d + [(prop, value)];
    var k := |d| - 1;
    var before := AsStringParts(d);
    var front := AsStringParts(e)[..|d|];
    forall i | 0 <= i < |d| ensures front[i] == (before[..k] + [before[k] + "\n"])[i] {
      assert e[i] == d[i];
      if i == k {
        assert before[k] == Declaration(d[k].0, Render(d[k].1)) + "";
        assert Declaration(d[k].0, Render(d[k].1)) + "" == Declaration(d[k].0, Render(d[k].1));
      }
    }
  }

  /** The pieces `stylesAsString` joins. */
  function AsStringParts(d: seq<(string, StyleValue)>): (r: seq<string>)
    ensures |r| == |d|
    ensures forall i | 0 <= i < |d| ::
      r[i] == Declaration(d[i].0, Render(d[i].1)) + (if i < |d| - 1 then "\n" else "")
  {
    seq(|d|, i requires 0 <= i < |d| =>
      Declaration(d[i].0, Render(d[i].1)) + (if i < |d| - 1 then "\n" else ""))
  }

  /** Extending the last part by `extra` and then adding `x` after `sep`. */
  lemma JoinGrowThenAppend(before: seq<string>, extra: string, sep: string, x: string)
    requires |before| > 0
    ensures Join(before[..|before| - 1] + [before[|before| - 1] + extra] + [x], sep)
      == Join(before, sep) + extra + sep + x
  {
    var front := before[..|before| - 1] + [before[|before| - 1] + extra];
    var q := front + [x];
    JoinLastGrows(before, extra, sep);
    assert q[..|q| - 1] == front;
  }

  /** Extending the last part of a join extends the joined text. */
  lemma JoinLastGrows(parts: seq<string>, extra: string, sep: string)
    requires |parts| > 0
    ensures Join(parts[..|parts| - 1] + [parts[|parts| - 1] + extra], sep) == Join(parts, sep) + extra
  {
    var q := parts[..|parts| - 1] + [parts[|parts| - 1] + extra];
    assert q[..|q| - 1] == parts[..|parts| - 1];
  }

  lemma {:induction false} ChannelCssEmpty(d: seq<(string, string)>)
    ensures ChannelCss(d) == "" <==> d == []
  {
    if d != [] {
      var k := |d| - 1;
      assert d == d[..k] + [d[k]];
      ChannelCssAppend(d[..k], d[k].0, d[k].1);
    }
  }

  lemma {:induction false} StylesAsStringEmpty(d: seq<(string, StyleValue)>)
    ensures StylesAsString(d) == "" <==> d == []
  {
    if d != [] {
      var k := |d| - 1;
      assert d == d[..k] + [d[k]];
      StylesAsStringAppend(d[..k], d[k].0, d[k].1);
    }
  }

  /** The values of a `stylesAsString` store, rendered as text. */
  function Rendered(d: seq<(string, StyleValue)>): (r: seq<(string, string)>)
    ensures |r| == |d|
    ensures forall i | 0 <= i < |d| :: r[i] == (d[i].0, Render(d[i].1))
  {
    seq(|d|, i requires 0 <= i < |d| => (d[i].0, Render(d[i].1)))
  }

  /** The two serialisers differ only in the final line break: on the same
      declarations, `stylesCss` gives `stylesAsString` followed by `\n`, and
      both give "" when there is nothing to declare. */
  lemma {:induction false} SerialisersAgree(d: seq<(string, StyleValue)>)
    ensures ChannelCss(Rendered(d)) == (if d == [] then "" else StylesAsString(d) + "\n")
  {
    if d != [] {
      var k := |d| - 1;
      var front := d[..k];
      assert d == front + [d[k]];
      assert Rendered(d) == Rendered(front) + [(d[k].0, Render(d[k].1))];
      SerialisersAgree(front);
      ChannelCssAppend(Rendered(front), d[k].0, Render(d[k].1));
      StylesAsStringAppend(front, d[k].0, d[k].1);
    }
  }

  /** components.js, two declarations: both end in a line break. */
  lemma ChannelCssTwo(p1: string, v1: string, p2: string, v2: string)
    ensures ChannelCss([(p1, v1), (p2, v2)])
      == Declaration(p1, v1) + "\n " + Declaration(p2, v2) + "\n"
  {
    ChannelCssAppend([], p1, v1);
    assert [] + [(p1, v1)] == [(p1, v1)];
    ChannelCssAppend([(p1, v1)], p2, v2);
    assert [(p1, v1)] + [(p2, v2)] == [(p1, v1), (p2, v2)];
  }

  /** _DOM.js, two declarations: only the first ends in a line break. */
  lemma StylesAsStringTwo(p1: string, v1: StyleValue, p2: string, v2: StyleValue)
    ensures StylesAsString([(p1, v1), (p2, v2)])
      == Declaration(p1, Render(v1)) + "\n " + Declaration(p2, Render(v2))
  {
    StylesAsStringAppend([], p1, v1);
    assert [] + [(p1, v1)] == [(p1, v1)];
    StylesAsStringAppend([(p1, v1)], p2, v2);
    assert [(p1, v1)] + [(p2, v2)] == [(p1, v1), (p2, v2)];
  }

  /** A number is rendered bare by `stylesAsString`, and components.js
      `setStyle` stores it as a pixel length. */
  lemma NumberRendering(p: string, n: nat)
    ensures StylesAsString([(p, Num(n))]) == "\t" + UnCamelCase(p) + ": " + NatToString(n) + ";"
    ensures ChannelCss([(p, Pixels(Num(n)))]) == "\t" + UnCamelCase(p) + ": " + NatToString(n) + "px;\n"
  {
    StylesAsStringAppend([], p, Num(n));
    assert [] + [(p, Num(n))] == [(p, Num(n))];
    ChannelCssAppend([], p, Pixels(Num(n)));
    assert [] + [(p, Pixels(Num(n)))] == [(p, Pixels(Num(n)))];
  }
}
