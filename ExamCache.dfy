/**
 * The time-bounded cache of the exam data, kept under two keys of the
 * browser's local key-value store: the serialised payload and the time it was
 * stored, in milliseconds since the epoch as decimal text.
 *
 * The clock (`Date.now()`) is a `now` parameter and the data fetch is an
 * injected outcome. JSON serialisation is an identity round trip on an
 * abstract payload: a stored `Json(p)` value is the JSON text of `p`.
 */
module ExamCache {
  import opened Wrappers
  import opened Sequences

  const CacheKey: string := "sampleDataCache"
  const CacheTimestampKey: string := "sampleDataCacheTimestamp"
  /** One hour. */
  const CacheExpirationMs: int := 60 * 60 * 1000

  /** One exam record of the data set; the payload is the list of them. */
  type Record = map<string, string>
  type Payload = seq<Record>

  /** A stored string: the JSON text of a payload, or any other text. */
  datatype Value = Json(payload: Payload) | Text(text: string)

  /**
   * The outcome of `fetchSampleData`'s try block. The simulated fetch never
   * rejects, so `FetchFailed` stands for an exception thrown while caching.
   */
  datatype FetchOutcome = Fetched(data: Payload) | FetchFailed(reason: string)

  /** `localStorage`: a map from keys to stored strings. */
  class Storage {
    var items: map<string, Value>

    constructor (initial: map<string, Value>)
      ensures items == initial
    {
      items := initial;
    }

    /** `getItem`: the stored value, or `null` when the key is absent. */
    method GetItem(key: string) returns (v: Option<Value>)
      ensures v.Some? <==> key in items
      ensures v.Some? ==> v.value == items[key]
    {
      v := if key in items then Some(items[key]) else None;
    }

    /** `setItem`: store under one key; every other key keeps its value. */
    method SetItem(key: string, value: Value)
      modifies this
      ensures items == old(items)[key := value]
    {
      items := items[key := value];
    }
  }

  /** JavaScript truthiness of a stored string: only the empty string is falsy (JSON text never is). */
  predicate IsTruthy(v: Value) {
    match v
    case Json(_) => true
    case Text(t) => t != ""
  }

  /** The characters `parseInt` skips first (StrWhiteSpaceChar of the StringNumericLiteral grammar, section 7.1.4.1 of ECMA-262). */
  predicate IsJsWhitespace(c: char) {
    var n := c as int;
    (9 <= n <= 13) || n == 32 || n == 0xA0 || n == 0x1680 || (0x2000 <= n <= 0x200A) ||
    n == 0x2028 || n == 0x2029 || n == 0x202F || n == 0x205F || n == 0x3000 || n == 0xFEFF
  }

  predicate IsDigit(c: char) {
    '0' <= c <= '9'
  }

  predicate AllDigits(s: string) {
    forall i :: 0 <= i < |s| ==> IsDigit(s[i])
  }

  /** The input without its leading whitespace. */
  function SkipJsWhitespace(s: string): (r: string)
    ensures |r| <= |s| && r == s[|s| - |r|..]
    ensures forall i :: 0 <= i < |s| - |r| ==> IsJsWhitespace(s[i])
    ensures r == [] || !IsJsWhitespace(r[0])
    decreases |s|
  {
    if s != [] && IsJsWhitespace(s[0]) then SkipJsWhitespace(s[1..]) else s
  }

  /** The longest prefix of decimal digits. */
  function DigitPrefix(s: string): (r: string)
    ensures r <= s && AllDigits(r)
    ensures r == s || !IsDigit(s[|r|])
    ensures AllDigits(s) ==> r == s
    decreases |s|
  {
    if s != [] && IsDigit(s[0]) then [s[0]] + DigitPrefix(s[1..]) else []
  }

  /** The number a string of decimal digits denotes. */
  function DigitsValue(d: string): nat
    requires AllDigits(d)
    decreases |d|
  {
    if d == [] then 0 else DigitsValue(d[..|d| - 1]) * 10 + (d[|d| - 1] as int - '0' as int)
  }

  /** What follows an optional leading `-` or `+`. */
  function AfterSign(t: string): string {
    if t != [] && (t[0] == '-' || t[0] == '+') then t[1..] else t
  }

  /**
   * `parseInt(s, 10)`: skip leading whitespace, read an optional sign and the
   * longest run of digits; with no digit the result is NaN, here `None`.
   */
  function ParseInt(s: string): (r: Option<int>)
    ensures r.None? <==> var body := AfterSign(SkipJsWhitespace(s)); body == [] || !IsDigit(body[0])
    ensures s != [] && AllDigits(s) ==> r == Some(DigitsValue(s))
  {
    DigitPrefixEmpty(AfterSign(SkipJsWhitespace(s)));
    DigitStringIsBody(s);
    ReadSigned(SkipJsWhitespace(s))
  }

  /** The signed digit run at the start of `t`, or NaN when there is none. */
  function ReadSigned(t: string): Option<int> {
    var digits := DigitPrefix(AfterSign(t));
    if digits == [] then None
    else if t[0] == '-' then Some(0 - DigitsValue(digits) as int)
    else Some(DigitsValue(digits))
  }

  /** There are no leading digits exactly when the string does not start with one. */
  lemma DigitPrefixEmpty(s: string)
    ensures DigitPrefix(s) == [] <==> s == [] || !IsDigit(s[0])
  {
  }

  /** A plain digit string has no whitespace and no sign to skip, and is all digits. */
  lemma DigitStringIsBody(s: string)
    ensures s != [] && AllDigits(s) ==> AfterSign(SkipJsWhitespace(s)) == s && DigitPrefix(s) == s
  {
    if s != [] && AllDigits(s) {
      assert IsDigit(s[0]);
      assert SkipJsWhitespace(s) == s;
    }
  }

  /** Skipping whitespace removes exactly a leading whitespace run. */
  lemma {:induction false} SkipJsWhitespaceOver(w: string, t: string)
    requires forall i :: 0 <= i < |w| ==> IsJsWhitespace(w[i])
    requires t == [] || !IsJsWhitespace(t[0])
    ensures SkipJsWhitespace(w + t) == t
    decreases |w|
  {
    if w == [] {
      assert w + t == t;
    } else {
      assert (w + t)[0] == w[0];
      assert (w + t)[1..] == w[1..] + t;
      SkipJsWhitespaceOver(w[1..], t);
    }
  }

  /** The digit run stops where the digits stop. */
  lemma {:induction false} DigitPrefixOver(d: string, rest: string)
    requires AllDigits(d)
    requires rest == [] || !IsDigit(rest[0])
    ensures DigitPrefix(d + rest) == d
    decreases |d|
  {
    if d == [] {
      assert d + rest == rest;
    } else {
      assert (d + rest)[0] == d[0];
      assert (d + rest)[1..] == d[1..] + rest;
      DigitPrefixOver(d[1..], rest);
      assert d == [d[0]] + d[1..];
    }
  }

  /**
   * The value of `parseInt` for an input read as its parts: leading
   * whitespace, an optional sign, a run of digits, and text that does not
   * continue the run.
   */
  lemma ParseIntParts(w: string, sign: string, d: string, rest: string)
    requires forall i :: 0 <= i < |w| ==> IsJsWhitespace(w[i])
    requires sign == "" || sign == "-" || sign == "+"
    requires d != [] && AllDigits(d)
    requires rest == [] || !IsDigit(rest[0])
    ensures ParseInt(w + sign + d + rest) == Some(if sign == "-" then 0 - DigitsValue(d) as int else DigitsValue(d))
  {
    var t := sign + (d + rest);
    AppendAssociative(w, sign, d);
    AppendAssociative(w, sign + d, rest);
    AppendAssociative(sign, d, rest);
    AfterSignOf(sign, d + rest);
    SkipJsWhitespaceOver(w, t);
    DigitPrefixOver(d, rest);
    ParseIntIsReadSigned(w + t);
    ReadSignedSteps(t, d + rest, d, sign == "-");
  }

  /** `ParseInt` is `ReadSigned` after the whitespace. */
  lemma ParseIntIsReadSigned(s: string)
    ensures ParseInt(s) == ReadSigned(SkipJsWhitespace(s))
  {
  }

  /** `ReadSigned` read off from the results of its two steps. */
  lemma ReadSignedSteps(t: string, body: string, d: string, negative: bool)
    requires AfterSign(t) == body && DigitPrefix(body) == d
    requires d != [] && AllDigits(d) && t != [] && (t[0] == '-' <==> negative)
    ensures ReadSigned(t) == Some(if negative then 0 - DigitsValue(d) as int else DigitsValue(d))
  {
  }

  /** After an optional sign comes a digit: the sign is all that `AfterSign` removes. */
  lemma AfterSignOf(sign: string, body: string)
    requires sign == "" || sign == "-" || sign == "+"
    requires body != [] && IsDigit(body[0])
    ensures AfterSign(sign + body) == body
    ensures !IsJsWhitespace((sign + body)[0])
    ensures (sign + body)[0] == '-' <==> sign == "-"
  {
    if sign == "" {
      assert sign + body == body;
    } else {
      assert (sign + body)[1..] == body;
    }
  }

  /** `n.toString()` for a non-negative integer: its decimal digits, no leading zero. */
  function DecimalString(n: nat): (r: string)
    ensures r != [] && AllDigits(r)
    ensures r[0] == '0' ==> n == 0 && r == "0"
    decreases n
  {
    if n < 10 then ['0' + n as char]
    else DecimalString(n / 10) + ['0' + (n % 10) as char]
  }

  lemma {:induction false} DecimalStringValue(n: nat)
    ensures DigitsValue(DecimalString(n)) == n
    decreases n
  {
    if n >= 10 {
      DecimalStringValue(n / 10);
      var d := DecimalString(n);
      assert d[..|d| - 1] == DecimalString(n / 10);
    }
  }

  /** A stored clock reading reads back as the same number. */
  lemma ParseIntOfDecimalString(n: nat)
    ensures ParseInt(DecimalString(n)) == Some(n)
  {
    var s := DecimalString(n);
    assert SkipJsWhitespace(s) == s;
    assert DigitPrefix(s) == s;
    DecimalStringValue(n);
  }

  /** `parseInt` applied to a stored value; JSON text of a list starts with `[` and reads as NaN. */
  function TimestampOf(v: Value): Option<int> {
    match v
    case Json(_) => None
    case Text(t) => ParseInt(t)
  }

  /** The test of `getCachedData`: both entries truthy and the timestamp less than an hour old. */
  predicate IsHit(items: map<string, Value>, now: int) {
    && CacheKey in items && IsTruthy(items[CacheKey])
    && CacheTimestampKey in items && IsTruthy(items[CacheTimestampKey])
    && match TimestampOf(items[CacheTimestampKey])
       case None => false
       case Some(t) => now - t < CacheExpirationMs
  }

  /**
   * `getCachedData`: the cached payload on a hit, `null` otherwise. It has no
   * `modifies` clause: reading the cache never changes the store.
   */
  method GetCachedData(storage: Storage, now: nat) returns (r: Option<Payload>)
    requires IsHit(storage.items, now) ==> storage.items[CacheKey].Json?
    ensures r.Some? <==> IsHit(storage.items, now)
    ensures r.Some? ==> r.value == storage.items[CacheKey].payload
  {
    var cachedData := storage.GetItem(CacheKey);
    var cachedTimestamp := storage.GetItem(CacheTimestampKey);
    if cachedData.Some? && IsTruthy(cachedData.value) && cachedTimestamp.Some? && IsTruthy(cachedTimestamp.value) {
      var timestamp := TimestampOf(cachedTimestamp.value);
      if timestamp.Some? && now - timestamp.value < CacheExpirationMs {
        return Some(cachedData.value.payload);
      }
    }
    return None;
  }

  /** An entry exactly one expiration window old is already a miss. */
  lemma ExpiryIsStrict(items: map<string, Value>, t: int)
    requires CacheTimestampKey in items && TimestampOf(items[CacheTimestampKey]) == Some(t)
    ensures !IsHit(items, t + CacheExpirationMs)
    ensures forall now :: now < t + CacheExpirationMs ==>
      (IsHit(items, now) <==> CacheKey in items && IsTruthy(items[CacheKey]) && IsTruthy(items[CacheTimestampKey]))
  {
  }

  /** A timestamp that does not parse as an integer never gives a hit (NaN compares false). */
  lemma UnparsableTimestampMisses(items: map<string, Value>, now: int)
    requires CacheTimestampKey in items && TimestampOf(items[CacheTimestampKey]).None?
    ensures !IsHit(items, now)
  {
  }

  /** The store after `setCachedData(data)` at time `now`. */
  function AfterSet(items: map<string, Value>, data: Payload, now: nat): (r: map<string, Value>)
    ensures CacheKey in r && r[CacheKey] == Json(data)
    ensures CacheTimestampKey in r && TimestampOf(r[CacheTimestampKey]) == Some(now) && IsTruthy(r[CacheTimestampKey])
    ensures forall k :: k != CacheKey && k != CacheTimestampKey ==>
      (k in r <==> k in items) && (k in items ==> r[k] == items[k])
  {
    ParseIntOfDecimalString(now);
    items[CacheKey := Json(data)][CacheTimestampKey := Text(DecimalString(now))]
  }

  /** Round trip: data stored at `t` is returned by every lookup less than one window later, and by no later one. */
  lemma SetThenGet(items: map<string, Value>, data: Payload, t: nat, now: int)
    ensures IsHit(AfterSet(items, data, t), now) <==> now - t < CacheExpirationMs
    ensures AfterSet(items, data, t)[CacheKey].Json? && AfterSet(items, data, t)[CacheKey].payload == data
  {
  }

  /** `setCachedData`: write the payload, then the current time; nothing else changes. */
  method SetCachedData(storage: Storage, data: Payload, now: nat)
    modifies storage
    ensures storage.items == AfterSet(old(storage.items), data, now)
  {
    storage.SetItem(CacheKey, Json(data));
    storage.SetItem(CacheTimestampKey, Text(DecimalString(now)));
  }

  /**
   * `fetchSampleData`: on success store the data with the current time and
   * return it; on failure return the empty list and leave the store alone.
   */
  method FetchSampleData(storage: Storage, outcome: FetchOutcome, now: nat) returns (r: Payload)
    modifies storage
    ensures outcome.Fetched? ==> r == outcome.data && storage.items == AfterSet(old(storage.items), r, now)
    ensures outcome.FetchFailed? ==> r == [] && storage.items == old(storage.items)
  {
    match outcome
    case Fetched(data) =>
      SetCachedData(storage, data, now);
      r := data;
    case FetchFailed(_) =>
      r := [];
  }

  /** A successful fetch is served from the cache for the next hour. */
  method FetchThenRead(storage: Storage, data: Payload, fetchedAt: nat, now: nat) returns (r: Option<Payload>)
    requires fetchedAt <= now < fetchedAt + CacheExpirationMs
    modifies storage
    ensures r == Some(data)
  {
    var fetched := FetchSampleData(storage, Fetched(data), fetchedAt);
    SetThenGet(old(storage.items), data, fetchedAt, now);
    r := GetCachedData(storage, now);
  }
}
