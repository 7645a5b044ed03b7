/** Values shared by every module of the model: optional values, results with
  * an error, JSON-like payloads, timestamps, and filters over rows. */
module Common {

  datatype Option<T> = None | Some(value: T)

  /** The outcome of an operation that may raise: `Err` carries the reason. */
  datatype Result<T, E> = Ok(value: T) | Err(error: E)

  /** A wall-clock instant (seconds); `timezone.now()` is always a parameter. */
  type Time = int

  /** JSON-like values used for request data, response payloads and event data. */
  datatype Json =
    | JNull
    | JBool(b: bool)
    | JInt(i: int)
    | JStr(s: string)
    | JList(items: seq<Json>)
    | JObj(fields: map<string, Json>)

  predicate IsDigit(c: char) {
    '0' <= c <= '9'
  }

  predicate AllDigits(s: string) {
    forall i :: 0 <= i < |s| ==> IsDigit(s[i])
  }

  /** The value of a string of decimal digits. */
  function DigitsValue(s: string): nat
    requires AllDigits(s)
  {
    if s == [] then 0 else 10 * DigitsValue(s[..|s| - 1]) + (s[|s| - 1] as int - '0' as int)
  }

  /** `int(s)` on a string: an optional sign and at least one decimal digit;
    * `None` where `int` raises `ValueError`. */
  function ParseInt(s: string): Option<int> {
    if |s| > 0 && (s[0] == '-' || s[0] == '+') then
      if |s| > 1 && AllDigits(s[1..]) then Some(if s[0] == '-' then -(DigitsValue(s[1..]) as int) else DigitsValue(s[1..]))
      else None
    else if |s| > 0 && AllDigits(s) then Some(DigitsValue(s))
    else None
  }

  /** The decimal digits of `n`, most significant first. */
  function Digits(n: nat): string {
    if n < 10 then [('0' as int + n) as char]
    else Digits(n / 10) + [('0' as int + n % 10) as char]
  }

  /** `str(n)` of an integer. */
  function ShowInt(n: int): string {
    if n < 0 then "-" + Digits(-n) else Digits(n)
  }

  /** `int(str(n)) == n`. */
  lemma {:induction false} ParseShow(n: int)
    ensures ParseInt(ShowInt(n)) == Some(n)
  {
    if n < 0 {
      DigitsRoundTrip(-n);
      assert ShowInt(n)[1..] == Digits(-n);
    } else {
      DigitsRoundTrip(n);
    }
  }

  /** The digits of `n` are a non-empty digit string whose value is `n`. */
  lemma {:induction false} DigitsRoundTrip(n: nat)
    ensures Digits(n) != [] && AllDigits(Digits(n)) && DigitsValue(Digits(n)) == n
  {
    if n >= 10 {
      DigitsRoundTrip(n / 10);
      var s := Digits(n);
      assert s[..|s| - 1] == Digits(n / 10);
    }
  }

  /** Python `int(v)` on a JSON value: an integer, a boolean (`True` is 1) or
    * a string `int` accepts; `None` where `int` raises. */
  function IntOf(v: Json): (r: Option<int>)
    ensures v.JInt? ==> r == Some(v.i)
    ensures v.JStr? ==> r == ParseInt(v.s)
    ensures (v.JNull? || v.JList? || v.JObj?) ==> r.None?
  {
    match v
    case JInt(i) => Some(i)
    case JBool(b) => Some(if b then 1 else 0)
    case JStr(s) => ParseInt(s)
    case _ => None
  }

  /** Python truthiness of an optional integer: `None` and `0` are falsy. */
  predicate TruthyInt(v: Option<int>) {
    v.Some? && v.value != 0
  }

  /** Python truthiness of an optional string: `None` and `""` are falsy. */
  predicate TruthyStr(v: Option<string>) {
    v.Some? && v.value != ""
  }

  /** `given or stored` for an integer field of a partial update. */
  function OrInt(given: Option<int>, stored: Option<int>): (r: Option<int>)
    ensures TruthyInt(given) ==> r == given
    ensures !TruthyInt(given) ==> r == stored
  {
    if TruthyInt(given) then given else stored
  }

  /** `given or stored` for a string field of a partial update. */
  function OrStr(given: Option<string>, stored: Option<string>): (r: Option<string>)
    ensures TruthyStr(given) ==> r == given
    ensures !TruthyStr(given) ==> r == stored
  {
    if TruthyStr(given) then given else stored
  }

  /** `given or stored` for a reference (an id or a date), which is never falsy. */
  function OrRef<T>(given: Option<T>, stored: Option<T>): (r: Option<T>)
    ensures given.Some? ==> r == given
    ensures given.None? ==> r == stored
  {
    if given.Some? then given else stored
  }

  function Min(a: int, b: int): int { if a <= b then a else b }

  /** The elements of `s` that satisfy `p`, in their original order. */
  function Filter<T>(s: seq<T>, p: T -> bool): (r: seq<T>)
    ensures |r| <= |s|
    ensures forall i :: 0 <= i < |r| ==> r[i] in s && p(r[i])
    ensures forall i :: 0 <= i < |s| && p(s[i]) ==> s[i] in r
  {
    if s == [] then []
    else if p(s[0]) then [s[0]] + Filter(s[1..], p)
    else Filter(s[1..], p)
  }

  /** The number of elements of `s` that satisfy `p`; the `.count()` of a query. */
  function Count<T>(s: seq<T>, p: T -> bool): nat
  {
    if s == [] then 0
    else (if p(s[0]) then 1 else 0) + Count(s[1..], p)
  }

  /** A query's `.count()` agrees with the length of its materialised list. */
  lemma {:induction false} CountIsFilterLength<T>(s: seq<T>, p: T -> bool)
    ensures Count(s, p) == |Filter(s, p)|
  {
    if s != [] {
      CountIsFilterLength(s[1..], p);
    }
  }

  /** The count of a non-empty list: that of all but its last element, plus the last. */
  lemma {:induction false} CountLast<T>(s: seq<T>, p: T -> bool)
    requires s != []
    ensures Count(s, p) == Count(s[..|s| - 1], p) + (if p(s[|s| - 1]) then 1 else 0)
  {
    assert s == s[..|s| - 1] + [s[|s| - 1]];
    CountSnoc(s[..|s| - 1], s[|s| - 1], p);
  }

  /** One more element adds one to the count when it matches. */
  lemma {:induction false} CountSnoc<T>(s: seq<T>, x: T, p: T -> bool)
    ensures Count(s + [x], p) == Count(s, p) + (if p(x) then 1 else 0)
  {
    if s != [] {
      assert (s + [x])[1..] == s[1..] + [x];
      CountSnoc(s[1..], x, p);
    }
  }

  /** The first `n` elements, or all of them; the `[:n]` slice of a query. */
  function Take<T>(s: seq<T>, n: nat): (r: seq<T>)
    ensures |r| == if n < |s| then n else |s|
    ensures r <= s
  {
    if n < |s| then s[..n] else s
  }

  /** Whether `p` is a prefix of `s` (Python's `str.startswith`). */
  predicate StartsWith(s: string, p: string) {
    |p| <= |s| && s[..|p|] == p
  }

  /** The characters `str.strip()` removes that occur in this model. */
  predicate IsSpace(c: char) {
    c == ' ' || c == '\t' || c == '\n' || c == '\r'
  }

  /** Whether `s.strip() == ""`: the string is empty or all white space. */
  predicate IsBlank(s: string) {
    forall i :: 0 <= i < |s| ==> IsSpace(s[i])
  }

  /** The integers `lo, lo + 1, ..., hi - 1`: the primary keys of a table. */
  function RangeFrom(lo: int, hi: int): (r: seq<int>)
    ensures |r| == if lo < hi then hi - lo else 0
    ensures forall k :: 0 <= k < |r| ==> r[k] == lo + k
    decreases hi - lo
  {
    if lo >= hi then [] else [lo] + RangeFrom(lo + 1, hi)
  }

  /** The ids `0, 1, ..., n - 1` of a table with `n` rows. */
  function Ids(n: nat): (r: seq<int>)
    ensures |r| == n
    ensures forall k :: 0 <= k < n ==> r[k] == k
  {
    if n == 0 then [] else Ids(n - 1) + [n - 1]
  }
}
