/** The pieces of JavaScript semantics the two views rely on: dynamically typed
    values, truthiness and `||`, the `x + 1` / `x - 1` the like counter uses,
    `String.prototype.trim` and `String.prototype.split` with a one-character
    separator. Numbers are integers here: no view computes a fraction. */
module Js {

  datatype Option<T> = None | Some(value: T)

  /** A JavaScript value as far as these views can produce one. */
  datatype JsValue = Undefined | Null | NaN | Num(n: int) | Str(s: string)

  /** ECMAScript ToBoolean: the falsy values are undefined, null, NaN, 0 and "". */
  function Truthy(v: JsValue): (b: bool)
    ensures b <==> v != Undefined && v != Null && v != NaN && v != Num(0) && v != Str("")
  {
    match v
    case Undefined => false
    case Null => false
    case NaN => false
    case Num(n) => n != 0
    case Str(s) => s != ""
  }

  /** `a || b`: the left operand when it is truthy, else the right one. The
      result is one of the operands, and it is truthy when either one is. */
  function Or(a: JsValue, b: JsValue): (r: JsValue)
    ensures r == a || r == b
    ensures Truthy(r) <==> Truthy(a) || Truthy(b)
    ensures Truthy(a) ==> r == a
    ensures !Truthy(a) ==> r == b
  {
    if Truthy(a) then a else b
  }

  // ---------------------------------------------------------------------------
  // Whitespace and trim()

  /** WhiteSpace and LineTerminator code points of ECMAScript (what trim() strips). */
  predicate IsWhitespace(c: char)
  {
    var k := c as int;
    k == 0x09 || k == 0x0A || k == 0x0B || k == 0x0C || k == 0x0D || k == 0x20 ||
    k == 0xA0 || k == 0x1680 || (0x2000 <= k && k <= 0x200A) ||
    k == 0x2028 || k == 0x2029 || k == 0x202F || k == 0x205F || k == 0x3000 || k == 0xFEFF
  }

  predicate AllWhitespace(s: string)
  {
    forall i :: 0 <= i < |s| ==> IsWhitespace(s[i])
  }

  /** The length of the whitespace run at the front of `s`. */
  function LeadingSpace(s: string): (k: nat)
    ensures k <= |s|
    ensures forall i :: 0 <= i < k ==> IsWhitespace(s[i])
    ensures k < |s| ==> !IsWhitespace(s[k])
  {
    if |s| > 0 && IsWhitespace(s[0]) then 1 + LeadingSpace(s[1..]) else 0
  }

  /** The index just past the last non-whitespace character of `s`. */
  function ContentEnd(s: string): (k: nat)
    ensures k <= |s|
    ensures forall i :: k <= i < |s| ==> IsWhitespace(s[i])
    ensures k > 0 ==> !IsWhitespace(s[k - 1])
  {
    if |s| > 0 && IsWhitespace(s[|s| - 1]) then ContentEnd(s[..|s| - 1]) else |s|
  }

  /** `s.trim()`: `s` with its leading and trailing whitespace removed and
      nothing else. It is empty exactly when `s` is all whitespace, and
      otherwise neither starts nor ends with whitespace. */
  function Trim(s: string): (r: string)
    ensures r == [] <==> AllWhitespace(s)
    ensures r != [] ==> !IsWhitespace(r[0]) && !IsWhitespace(r[|r| - 1])
    ensures exists a, b :: 0 <= a <= b <= |s| && r == s[a..b] && AllWhitespace(s[..a]) && AllWhitespace(s[b..])
  {
    var a := LeadingSpace(s);
    var t := s[a..];
    var b := ContentEnd(t);
    assert a < |s| ==> b > 0;
    assert t[..b] == s[a..a + b];
    assert AllWhitespace(s[..a]);
    assert AllWhitespace(s[a + b..]) by {
      forall j | a + b <= j < |s|
        ensures IsWhitespace(s[j])
      {
        assert s[j] == t[j - a];
      }
    }
    t[..b]
  }

  // ---------------------------------------------------------------------------
  // Number conversion and the like counter's arithmetic

  predicate IsDigit(c: char)
  {
    '0' <= c <= '9'
  }

  predicate IsDigits(s: string)
  {
    |s| > 0 && forall i :: 0 <= i < |s| ==> IsDigit(s[i])
  }

  function DigitsValue(s: string): nat
    requires forall i :: 0 <= i < |s| ==> IsDigit(s[i])
  {
    if s == [] then 0
    else
      assert IsDigit(s[|s| - 1]);
      10 * DigitsValue(s[..|s| - 1]) + (s[|s| - 1] as int - '0' as int)
  }

  /** ToNumber of a string, for integer numerals with an optional sign. */
  function StringToNumber(s: string): JsValue
  {
    var t := Trim(s);
    if t == [] then Num(0)
    else if IsDigits(t) then Num(DigitsValue(t))
    else if t[0] == '-' && IsDigits(t[1..]) then Num(-(DigitsValue(t[1..]) as int))
    else if t[0] == '+' && IsDigits(t[1..]) then Num(DigitsValue(t[1..]))
    else NaN
  }

  /** ECMAScript ToNumber. */
  function ToNumber(v: JsValue): (r: JsValue)
    ensures r.Num? || r.NaN?
  {
    match v
    case Undefined => NaN
    case Null => Num(0)
    case NaN => NaN
    case Num(n) => v
    case Str(s) => StringToNumber(s)
  }

  /** `v + 1`: string concatenation when `v` is a string, numeric addition otherwise. */
  function PlusOne(v: JsValue): (r: JsValue)
    ensures v.Str? ==> r.Str? && |r.s| == |v.s| + 1 && r.s[..|v.s|] == v.s && r.s[|v.s|] == '1'
    ensures v.Num? ==> r == Num(v.n + 1)
    ensures v.Null? ==> r == Num(1)
    ensures v.Undefined? || v.NaN? ==> r == NaN
  {
    if v.Str? then Str(v.s + "1")
    else
      var x := ToNumber(v);
      if x.Num? then Num(x.n + 1) else NaN
  }

  /** `v - 1`: always numeric, a string being converted to a number first. */
  function MinusOne(v: JsValue): (r: JsValue)
    ensures r.Num? || r.NaN?
    ensures v.Num? ==> r == Num(v.n - 1)
    ensures v.Null? ==> r == Num(-1)
    ensures v.Undefined? || v.NaN? ==> r == NaN
    ensures v.Str? ==> (r.Num? <==> StringToNumber(v.s).Num?)
    ensures v.Str? && r.Num? ==> r.n == StringToNumber(v.s).n - 1
  {
    var x := ToNumber(v);
    if x.Num? then Num(x.n - 1) else NaN
  }

  /** On a numeric count, `+ 1` and `- 1` undo each other, in either order. */
  lemma PlusMinusCancel(v: JsValue)
    requires v.Num?
    ensures MinusOne(PlusOne(v)) == v
    ensures PlusOne(MinusOne(v)) == v
  {
  }

  /** A null count (a comment row whose comment_likes was never set) counts as 0. */
  lemma NullCountsAsZero()
    ensures PlusOne(Null) == Num(1) && MinusOne(Null) == Num(-1)
    ensures MinusOne(PlusOne(Null)) == Num(0)
  {
  }

  /** A count held as a string does not come back: `"5" + 1` is `"51"`, and
      `"51" - 1` is 50. */
  lemma TextCountDoesNotCancel()
    ensures PlusOne(Str("5")) == Str("51")
    ensures MinusOne(PlusOne(Str("5"))) == Num(50)
  {
    assert !IsWhitespace('5') && !IsWhitespace('1');
    assert LeadingSpace("51") == 0;
    assert ContentEnd("51") == 2;
    assert Trim("51") == "51";
    assert DigitsValue("51"[..1]) == 5;
  }

  // ---------------------------------------------------------------------------
  // split() and its inverse

  /** `s.split(sep)` for a one-character separator: the maximal runs between
      separators, including empty ones, so there is always at least one part. */
  function Split(s: string, sep: char): (parts: seq<string>)
    ensures |parts| >= 1
    ensures forall i :: 0 <= i < |parts| ==> sep !in parts[i]
    ensures |parts| == 1 + Occurrences(s, sep)
  {
    if |s| == 0 then [""]
    else
      var rest := Split(s[1..], sep);
      if s[0] == sep then [""] + rest
      else [[s[0]] + rest[0]] + rest[1..]
  }

  /** The number of times `c` occurs in `s`. */
  function Occurrences(s: string, c: char): nat
  {
    if s == [] then 0 else (if s[0] == c then 1 else 0) + Occurrences(s[1..], c)
  }

  /** A character is absent from a string exactly when it occurs zero times. */
  lemma {:induction false} OccurrencesCounts(s: string, c: char)
    ensures Occurrences(s, c) == 0 <==> c !in s
  {
    if s != [] {
      OccurrencesCounts(s[1..], c);
      assert s == [s[0]] + s[1..];
    }
  }

  /** `parts.join(sep)`. */
  function Join(parts: seq<string>, sep: char): string
  {
    if |parts| == 0 then ""
    else if |parts| == 1 then parts[0]
    else parts[0] + [sep] + Join(parts[1..], sep)
  }

  /** Joining the parts with the separator gives back the original string. */
  lemma {:induction false} JoinSplit(s: string, sep: char)
    ensures Join(Split(s, sep), sep) == s
  {
    if |s| > 0 {
      var rest := Split(s[1..], sep);
      JoinSplit(s[1..], sep);
      if s[0] == sep {
        assert Split(s, sep) == [""] + rest;
        assert ([""] + rest)[1..] == rest;
        assert s == [sep] + s[1..];
      } else {
        var parts := [[s[0]] + rest[0]] + rest[1..];
        assert Split(s, sep) == parts;
        if |rest| == 1 {
          assert s == [s[0]] + s[1..];
        } else {
          assert parts[1..] == rest[1..];
          assert Join(rest, sep) == rest[0] + [sep] + Join(rest[1..], sep);
          assert s == [s[0]] + s[1..];
        }
      }
    }
  }

  /** A string without the separator is a single part. */
  lemma {:induction false} SplitWithoutSeparator(s: string, sep: char)
    requires sep !in s
    ensures Split(s, sep) == [s]
  {
    if |s| > 0 {
      assert sep !in s[1..];
      SplitWithoutSeparator(s[1..], sep);
      assert s == [s[0]] + s[1..];
    }
  }

  /** The first part ends at the first separator; the rest is the split of what follows it. */
  lemma {:induction false} SplitAtFirst(h: string, t: string, sep: char)
    requires sep !in h
    ensures Split(h + [sep] + t, sep) == [h] + Split(t, sep)
  {
    var s := h + [sep] + t;
    if |h| == 0 {
      assert s[0] == sep && s[1..] == t;
    } else {
      assert s[0] == h[0] && s[1..] == h[1..] + [sep] + t;
      assert sep !in h[1..];
      SplitAtFirst(h[1..], t, sep);
      assert [h[0]] + h[1..] == h;
    }
  }
}
