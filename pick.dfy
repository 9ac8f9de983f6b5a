/**
  `s_pick` and `t_pick` (main.rs): walk a priority list of keys over a JSON
  object and return what the first usable key holds.
 */
module Pick {
  import opened Wrappers
  import opened Decimal
  import opened Json

  /** A point in time (`DateTime<Utc>`); its representation is not modelled. */
  datatype Instant = Instant(ticks: int)

  /**
    The date conversions `t_pick` relies on, as oracles: `dateTimeFromStr`
    is chrono's `FromStr` for `DateTime<Utc>` (`str::parse`), which reads
    RFC 3339 with chrono's relaxations (a space instead of 'T', among
    others), not a strict RFC 3339 parser; `naive` is the
    "%Y-%m-%d %H:%M:%S" format read as UTC; `fromTimestamp` is
    `Utc.timestamp_opt(n, 0).single()`, which is None outside chrono's range.
   */
  datatype DateParsers = DateParsers(
    dateTimeFromStr: string -> Option<Instant>,
    naive: string -> Option<Instant>,
    fromTimestamp: int -> Option<Instant>)

  /** What `s_pick` takes from one value: a non-empty string, or a number's text; nothing from any other shape. */
  function StrCandidate(x: Value): (r: Option<string>)
    ensures r.None? <==> x.Null? || x.Bool? || x.Array? || x.Object? || x == Str("")
    ensures r.Some? ==> |r.value| > 0
    ensures x.Str? && x.s != "" ==> r == Some(x.s)
    ensures x.Num? ==> r == Some(NumberText(x.n))
  {
    match x
    case Str(s) => if s != "" then Some(s) else None
    case Num(n) => Some(NumberText(n))
    case _ => None
  }

  /** What `s_pick` takes from `key` of `v`; None when the key is absent or `v` is no object. */
  function KeyCandidate(v: Value, key: string): (r: Option<string>)
    ensures !(v.Object? && key in v.fields) ==> r.None?
    ensures v.Object? && key in v.fields ==> r == StrCandidate(v.fields[key])
  {
    match Get(v, key)
    case Some(x) => StrCandidate(x)
    case None => None
  }

  /**
    `s_pick`: the candidate of the earliest key in list order that has one,
    and None exactly when no key has one.
   */
  function SPick(v: Value, keys: seq<string>): (r: Option<string>)
    ensures r.None? <==> forall i :: 0 <= i < |keys| ==> KeyCandidate(v, keys[i]).None?
    ensures forall i | 0 <= i < |keys| && KeyCandidate(v, keys[i]).Some? &&
      (forall j | 0 <= j < i :: KeyCandidate(v, keys[j]).None?) :: r == KeyCandidate(v, keys[i])
    ensures r.Some? ==> |r.value| > 0
    decreases |keys|
  {
    if keys == [] then None
    else match KeyCandidate(v, keys[0])
      case Some(s) => Some(s)
      case None =>
        var r := SPick(v, keys[1..]);
        assert forall i :: 1 <= i < |keys| ==> keys[i] == keys[1..][i - 1];
        r
  }

  /** A key that is absent, or holds null, a bool, an array, an object or "", is passed over. */
  lemma SPickSkips(v: Value, key: string, rest: seq<string>)
    requires Get(v, key).None? || (var x := Get(v, key).value;
      x.Null? || x.Bool? || x.Array? || x.Object? || x == Str(""))
    ensures SPick(v, [key] + rest) == SPick(v, rest)
  {
    assert ([key] + rest)[1..] == rest;
  }

  /** Whatever the keys, a document that is not an object yields None. */
  lemma SPickNonObject(v: Value, keys: seq<string>)
    requires !v.Object?
    ensures SPick(v, keys) == None
  {
  }

  /** A non-empty string at the first key is returned as it is, whatever later keys hold. */
  lemma SPickFirstString(v: Value, key: string, rest: seq<string>, s: string)
    requires Get(v, key) == Some(Str(s)) && s != ""
    ensures SPick(v, [key] + rest) == Some(s)
  {
    assert ([key] + rest)[0] == key;
  }

  /** An unsigned integer is returned as its decimal text, which reads back as the same number. */
  lemma SPickNumberText(v: Value, key: string, rest: seq<string>, u: u64)
    requires Get(v, key) == Some(Num(PosInt(u)))
    ensures SPick(v, [key] + rest).Some?
    ensures ParseU64(SPick(v, [key] + rest).value) == Some(u)
  {
    assert ([key] + rest)[0] == key;
    NumberTextParses(PosInt(u));
  }

  /** A negative integer is returned as '-' followed by decimal text that reads back as its magnitude. */
  lemma SPickNegativeNumberText(v: Value, key: string, rest: seq<string>, i: NegI64)
    requires Get(v, key) == Some(Num(NegInt(i)))
    ensures SPick(v, [key] + rest).Some?
    ensures var t := SPick(v, [key] + rest).value;
      |t| > 1 && t[0] == '-' && ParseU64(t[1..]) == Some(-(i as int))
  {
    var keys, t := [key] + rest, NumberText(NegInt(i));
    assert keys[0] == key;
    assert KeyCandidate(v, key) == Some(t);
    assert SPick(v, keys) == Some(t);
    NumberTextParses(NegInt(i));
  }

  /** What one key decides in `t_pick`: stop with a result (possibly None), or go on to the next key. */
  datatype Probe = Stop(result: Option<Instant>) | Next

  /**
    A string stops the search when either date format parses it; an integer
    that fits in i64 always stops it, with the timestamp conversion's answer;
    a float, a u64 above i64::MAX and every other shape go on.
   */
  function TimeProbe(p: DateParsers, x: Value): (r: Probe)
    ensures r.Stop? <==> (x.Str? && (p.dateTimeFromStr(x.s).Some? || p.naive(x.s).Some?)) || (x.Num? && AsI64(x.n).Some?)
    ensures x.Str? && p.dateTimeFromStr(x.s).Some? ==> r == Stop(p.dateTimeFromStr(x.s))
    ensures x.Str? && p.dateTimeFromStr(x.s).None? && r.Stop? ==> r == Stop(p.naive(x.s)) && r.result.Some?
    ensures x.Num? && AsI64(x.n).Some? ==> r == Stop(p.fromTimestamp(AsI64(x.n).value))
  {
    match x
    case Str(s) =>
      if p.dateTimeFromStr(s).Some? then Stop(p.dateTimeFromStr(s))
      else if p.naive(s).Some? then Stop(p.naive(s))
      else Next
    case Num(n) =>
      (match AsI64(n)
       case Some(t) => Stop(p.fromTimestamp(t))
       case None => Next)
    case _ => Next
  }

  /** What `key` of `v` decides; an absent key, or a document that is no object, goes on. */
  function KeyProbe(p: DateParsers, v: Value, key: string): (r: Probe)
    ensures !(v.Object? && key in v.fields) ==> r.Next?
    ensures v.Object? && key in v.fields ==> r == TimeProbe(p, v.fields[key])
  {
    match Get(v, key)
    case Some(x) => TimeProbe(p, x)
    case None => Next
  }

  /** `t_pick`: the result of the earliest key that stops the search, and None when none does. */
  function TPick(p: DateParsers, v: Value, keys: seq<string>): (r: Option<Instant>)
    ensures (forall i :: 0 <= i < |keys| ==> KeyProbe(p, v, keys[i]).Next?) ==> r.None?
    ensures forall i | 0 <= i < |keys| && KeyProbe(p, v, keys[i]).Stop? &&
      (forall j | 0 <= j < i :: KeyProbe(p, v, keys[j]).Next?) :: r == KeyProbe(p, v, keys[i]).result
    decreases |keys|
  {
    if keys == [] then None
    else match KeyProbe(p, v, keys[0])
      case Stop(result) => result
      case Next =>
        var r := TPick(p, v, keys[1..]);
        assert forall i :: 1 <= i < |keys| ==> keys[i] == keys[1..][i - 1];
        r
  }

  /** An i64 integer ends the search at once: its conversion is the answer, None if out of range, and later keys are never tried. */
  lemma TPickIntegerStops(p: DateParsers, v: Value, key: string, rest: seq<string>, n: Number)
    requires Get(v, key) == Some(Num(n)) && AsI64(n).Some?
    ensures TPick(p, v, [key] + rest) == p.fromTimestamp(AsI64(n).value)
  {
    assert ([key] + rest)[0] == key;
  }

  /** A string that neither date format accepts falls through to the next key. */
  lemma TPickUnparsableFallsThrough(p: DateParsers, v: Value, key: string, rest: seq<string>, s: string)
    requires Get(v, key) == Some(Str(s)) && p.dateTimeFromStr(s).None? && p.naive(s).None?
    ensures TPick(p, v, [key] + rest) == TPick(p, v, rest)
  {
    assert ([key] + rest)[1..] == rest;
  }

  /** A float, or an integer above i64::MAX, is not a timestamp to `t_pick` and falls through. */
  lemma TPickNonI64FallsThrough(p: DateParsers, v: Value, key: string, rest: seq<string>, n: Number)
    requires Get(v, key) == Some(Num(n)) && AsI64(n).None?
    ensures TPick(p, v, [key] + rest) == TPick(p, v, rest)
  {
    assert ([key] + rest)[1..] == rest;
  }
}
