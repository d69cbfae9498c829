/** The values the chart scripts compute with: CSV rows of strings, JavaScript
    numbers (which may be NaN), truthiness, and the string-to-number coercions
    the scripts apply to CSV cells. */
module Js {
  import opened Collections
  import opened Text

  /** A JavaScript number. Real arithmetic stands for floating point; the
      infinities are not modelled. */
  datatype Num = Finite(r: real) | NaN {
    /** `Number.isFinite(x)` */
    predicate IsFinite() { Finite? }

    /** Truthiness in `x || y`, `x ? a : b` and `if (!x)`: 0 and NaN are falsy. */
    predicate Truthy() { Finite? && r != 0.0 }
  }

  /** `x || 0`, and `Number.isFinite(x) ? x : 0`: NaN (and 0) become 0. */
  function OrZero(n: Num): real
  {
    if n.Finite? then n.r else 0.0
  }

  /** The numbers `d3.max` and `d3.min` look at: NaN is skipped. */
  function FiniteReal(n: Num): Option<real>
  {
    if n.Finite? then Some(n.r) else None
  }

  /** `a + b` on numbers: NaN is absorbing. */
  function Add(a: Num, b: Num): Num
  {
    if a.Finite? && b.Finite? then Finite(a.r + b.r) else NaN
  }

  /** A parsed CSV line (or a JSON property bag): column name to cell text.
      A column the row lacks reads as `undefined`. */
  type Row = map<string, string>

  /** `row[k]`: `None` stands for `undefined`. */
  function Field(r: Row, k: string): Option<string>
  {
    if k in r then Some(r[k]) else None
  }

  /** The text of a column, or `undefined` when the row lacks it, compared
      against a list with `includes`. */
  predicate FieldIn(r: Row, k: string, values: seq<string>)
  {
    k in r && r[k] in values
  }

  /** `String(v)`: `undefined` prints as the word. */
  function Str(o: Option<string>): string
  {
    match o
    case None => "undefined"
    case Some(s) => s
  }

  predicate HasDigit(s: string)
  {
    exists i :: 0 <= i < |s| && IsDigit(s[i])
  }

  /** The engine's reading of a numeric literal, which the model leaves
      abstract: `unaryPlus` is `Number(s)` and `parseFloat` is the longest
      numeric prefix, each consulted only for strings holding a decimal digit. */
  datatype Reader = Reader(unaryPlus: string -> Num, parseFloat: string -> Num)

  /** Unary `+` on a string: blank text is 0, text without a digit is NaN. */
  function Plus(rd: Reader, s: string): Num
  {
    if AllSpace(s) then Finite(0.0)
    else if !HasDigit(s) then NaN
    else rd.unaryPlus(s)
  }

  /** `+row[k]`: a missing cell is `+undefined`, which is NaN. */
  function PlusCell(rd: Reader, o: Option<string>): Num
  {
    match o
    case None => NaN
    case Some(s) => Plus(rd, s)
  }

  /** `parseFloat(s)`: text without a digit (the empty string among it) is NaN. */
  function ParseFloat(rd: Reader, s: string): Num
  {
    if !HasDigit(s) then NaN else rd.parseFloat(s)
  }

  /** The characters `/[^\d.+\-eE]/g` leaves in place. */
  predicate IsNumericChar(c: char)
  {
    IsDigit(c) || c == '.' || c == '+' || c == '-' || c == 'e' || c == 'E'
  }

  predicate AllNumeric(s: string)
  {
    forall i :: 0 <= i < |s| ==> IsNumericChar(s[i])
  }

  /** `String(v).replace(/[^\d.+\-eE]/g, "")`: keeps the numeric characters, in order. */
  function KeepNumeric(s: string): (r: string)
    ensures AllNumeric(r)
    ensures |r| <= |s|
  {
    if s == [] then []
    else KeepNumeric(s[..|s| - 1]) + (if IsNumericChar(s[|s| - 1]) then [s[|s| - 1]] else [])
  }

  lemma {:induction false} KeepNumericAppend(a: string, b: string)
    ensures KeepNumeric(a + b) == KeepNumeric(a) + KeepNumeric(b)
    decreases |b|
  {
    if b == [] {
      assert a + b == a;
    } else {
      var n := |b| - 1;
      assert (a + b)[..|a + b| - 1] == a + b[..n];
      KeepNumericAppend(a, b[..n]);
    }
  }

  /** Text made only of numeric characters passes through unchanged. */
  lemma {:induction false} KeepNumericOfNumeric(s: string)
    requires AllNumeric(s)
    ensures KeepNumeric(s) == s
    decreases |s|
  {
    if s != [] {
      KeepNumericOfNumeric(s[..|s| - 1]);
      assert s[..|s| - 1] + [s[|s| - 1]] == s;
    }
  }

  /** Stripping twice is stripping once. */
  lemma KeepNumericIdempotent(s: string)
    ensures KeepNumeric(KeepNumeric(s)) == KeepNumeric(s)
  {
    KeepNumericOfNumeric(KeepNumeric(s));
  }

  /** Every numeric character of the input survives the strip, and nothing else does. */
  lemma {:induction false} KeepNumericMembers(s: string, c: char)
    ensures c in KeepNumeric(s) <==> c in s && IsNumericChar(c)
    decreases |s|
  {
    if s != [] {
      var n := |s| - 1;
      KeepNumericMembers(s[..n], c);
      assert s == s[..n] + [s[n]];
      assert c in s <==> c in s[..n] || c == s[n];
    }
  }

  /** A decimal digit survives the strip: the stripped text has one iff the input has. */
  lemma KeepNumericDigits(s: string)
    ensures HasDigit(KeepNumeric(s)) <==> HasDigit(s)
  {
    var r := KeepNumeric(s);
    if HasDigit(s) {
      var i :| 0 <= i < |s| && IsDigit(s[i]);
      KeepNumericMembers(s, s[i]);
      var j :| 0 <= j < |r| && r[j] == s[i];
    }
    if HasDigit(r) {
      var j :| 0 <= j < |r| && IsDigit(r[j]);
      KeepNumericMembers(s, r[j]);
    }
  }

  /** The `toNum` that cleans a cell and calls `parseFloat`
      (the box plot and the stacked area chart). */
  function ToNumParse(rd: Reader, v: Option<string>): (n: Num)
    ensures v.None? ==> n == NaN
    ensures v.Some? && !HasDigit(v.value) ==> n == NaN
  {
    match v
    case None => NaN
    case Some(s) =>
      KeepNumericDigits(s);
      ParseFloat(rd, KeepNumeric(s))
  }

  /** Cleaning a cell that is already clean changes nothing it converts to. */
  lemma ToNumParseClean(rd: Reader, s: string)
    ensures ToNumParse(rd, Some(KeepNumeric(s))) == ToNumParse(rd, Some(s))
  {
    KeepNumericIdempotent(s);
  }

  /** The `toNum` that cleans a cell and applies unary `+`
      (the symbolic, bubble and choropleth maps). */
  function ToNumPlus(rd: Reader, v: Option<string>): (n: Num)
    ensures v.None? ==> n == NaN
    ensures v.Some? && KeepNumeric(v.value) == [] ==> n == Finite(0.0)
    ensures v.Some? && KeepNumeric(v.value) != [] && !HasDigit(v.value) ==> n == NaN
  {
    match v
    case None => NaN
    case Some(s) =>
      KeepNumericDigits(s);
      var t := KeepNumeric(s);
      assert t != [] ==> !IsSpace(t[0]);
      Plus(rd, t)
  }

  lemma ToNumPlusClean(rd: Reader, s: string)
    ensures ToNumPlus(rd, Some(KeepNumeric(s))) == ToNumPlus(rd, Some(s))
  {
    KeepNumericIdempotent(s);
  }

  /** The number of entries `d3.mean` counts: those that are numbers and not NaN. */
  function FiniteCount(xs: seq<Num>): nat
  {
    if xs == [] then 0 else FiniteCount(xs[..|xs| - 1]) + (if xs[|xs| - 1].Finite? then 1 else 0)
  }

  lemma {:induction false} FiniteCountZero(xs: seq<Num>)
    ensures FiniteCount(xs) == 0 <==> forall i :: 0 <= i < |xs| ==> !xs[i].IsFinite()
    decreases |xs|
  {
    if xs != [] {
      var n := |xs| - 1;
      FiniteCountZero(xs[..n]);
      assert forall i :: 0 <= i < n ==> xs[..n][i] == xs[i];
    }
  }

  /** `d3.mean` over numbers: NaN entries are skipped, and an empty count is
      undefined (NaN here). */
  function Mean(xs: seq<Num>): (m: Num)
    ensures m.IsFinite() <==> exists i :: 0 <= i < |xs| && xs[i].IsFinite()
    ensures m.IsFinite() ==> m.r * (FiniteCount(xs) as real) == SumBy(xs, OrZero)
  {
    FiniteCountZero(xs);
    var c := FiniteCount(xs);
    if c == 0 then NaN else Finite(SumBy(xs, OrZero) / c as real)
  }

  /** Every number among `xs` lies in `[lo, hi]`. */
  predicate FiniteWithin(xs: seq<Num>, lo: real, hi: real)
  {
    forall i :: 0 <= i < |xs| && xs[i].IsFinite() ==> lo <= xs[i].r <= hi
  }

  /** Each number among `xs` is at least `lo`. */
  predicate FiniteAbove(xs: seq<Num>, lo: real)
  {
    forall i :: 0 <= i < |xs| && xs[i].IsFinite() ==> lo <= xs[i].r
  }

  /** Each number among `xs` is at most `hi`. */
  predicate FiniteBelow(xs: seq<Num>, hi: real)
  {
    forall i :: 0 <= i < |xs| && xs[i].IsFinite() ==> xs[i].r <= hi
  }

  lemma {:induction false} SumFiniteLower(xs: seq<Num>, lo: real)
    requires FiniteAbove(xs, lo)
    ensures lo * FiniteCount(xs) as real <= SumBy(xs, OrZero)
    decreases |xs|
  {
    if xs != [] {
      var n := |xs| - 1;
      var init := xs[..n];
      assert FiniteAbove(init, lo) by {
        forall i | 0 <= i < n && init[i].IsFinite() ensures lo <= init[i].r { assert init[i] == xs[i]; }
      }
      SumFiniteLower(init, lo);
      var c := FiniteCount(init) as real;
      if xs[n].IsFinite() {
        assert FiniteCount(xs) as real == c + 1.0;
        assert lo * (c + 1.0) == lo * c + lo;
      }
    }
  }

  lemma {:induction false} SumFiniteUpper(xs: seq<Num>, hi: real)
    requires FiniteBelow(xs, hi)
    ensures SumBy(xs, OrZero) <= hi * FiniteCount(xs) as real
    decreases |xs|
  {
    if xs != [] {
      var n := |xs| - 1;
      var init := xs[..n];
      assert FiniteBelow(init, hi) by {
        forall i | 0 <= i < n && init[i].IsFinite() ensures init[i].r <= hi { assert init[i] == xs[i]; }
      }
      SumFiniteUpper(init, hi);
      var c := FiniteCount(init) as real;
      if xs[n].IsFinite() {
        assert FiniteCount(xs) as real == c + 1.0;
        assert hi * (c + 1.0) == hi * c + hi;
      }
    }
  }

  lemma QuotientBounds(s: real, c: real, lo: real, hi: real)
    requires c > 0.0 && lo * c <= s <= hi * c
    ensures lo <= s / c <= hi
  {
    var q := s / c;
    assert q * c == s;
  }

  /** The mean lies between any bounds of the values it averages. */
  lemma MeanBounds(xs: seq<Num>, lo: real, hi: real)
    requires FiniteWithin(xs, lo, hi)
    requires exists i :: 0 <= i < |xs| && xs[i].IsFinite()
    ensures lo <= Mean(xs).r <= hi
  {
    SumFiniteLower(xs, lo);
    SumFiniteUpper(xs, hi);
    FiniteCountZero(xs);
    var c := FiniteCount(xs);
    assert c != 0;
    QuotientBounds(SumBy(xs, OrZero), c as real, lo, hi);
  }

  lemma MeanWithin(xs: seq<Num>, lo: real, hi: real)
    requires FiniteWithin(xs, lo, hi)
    ensures Mean(xs).IsFinite() ==> lo <= Mean(xs).r <= hi
  {
    if Mean(xs).IsFinite() {
      MeanBounds(xs, lo, hi);
    }
  }

  /** A plain object with string keys: its keys in insertion order (the order
      `Object.keys` and `Object.values` report) and its entries. */
  datatype Obj<V> = Obj(keys: seq<string>, entries: map<string, V>)

  /** The keys listed are exactly the keys present, each once. */
  predicate ObjOk<V>(o: Obj<V>)
  {
    Distinct(o.keys) && (forall k :: k in o.entries ==> k in o.keys) && (forall k :: k in o.keys ==> k in o.entries)
  }

  /** `o[k] = v`: a new key goes to the end of the key order, an existing key
      keeps its place. */
  function Put<V>(o: Obj<V>, k: string, v: V): (r: Obj<V>)
    ensures r.entries == o.entries[k := v]
    ensures ObjOk(o) ==> ObjOk(r)
    ensures ObjOk(o) && k in o.entries ==> r.keys == o.keys
    ensures k !in o.keys ==> r.keys == o.keys + [k]
  {
    if k in o.keys then Obj(o.keys, o.entries[k := v]) else Obj(o.keys + [k], o.entries[k := v])
  }

  /** The entry of `k` as a number: an absent key or NaN counts 0 (`o[k] || 0`). */
  function NumAt(o: Obj<Num>, k: string): real
  {
    if k in o.entries then OrZero(o.entries[k]) else 0.0
  }

  /** `NumAt` of `o`, as a function of the key. */
  function NumsOf(o: Obj<Num>): string -> real
  {
    k => NumAt(o, k)
  }

  /** The sum of an object's numeric values, NaN counted as 0. */
  function ObjSum(o: Obj<Num>): real
  {
    SumBy(o.keys, NumsOf(o))
  }

  /** Writing one entry changes the sum by the change of that entry. */
  lemma PutSum(o: Obj<Num>, k: string, v: Num)
    requires ObjOk(o)
    ensures ObjSum(Put(o, k, v)) == ObjSum(o) - NumAt(o, k) + OrZero(v)
  {
    var r := Put(o, k, v);
    var f, g := NumsOf(o), NumsOf(r);
    assert forall i :: 0 <= i < |o.keys| && o.keys[i] != k ==> f(o.keys[i]) == g(o.keys[i]);
    SumByExcept(o.keys, f, g, k);
    if k !in o.keys {
      SumByAppend(o.keys, [k], g);
    }
  }
}
