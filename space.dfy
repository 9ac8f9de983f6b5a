/**
  `space_refresh`: reads the comma-separated `src` query parameter (all five
  sources when it is absent), trims and lower-cases each piece, calls the
  fetcher of every recognised source in order, ignores what the fetcher
  returns, and answers `{ "refreshed": [...] }` with the names it handled.
 */
module Space {
  import opened Wrappers
  import opened Json
  import opened Errors

  const SRC_PARAM: string := "src"
  const REFRESHED_KEY: string := "refreshed"
  const DEFAULT_SOURCES: string := "apod,neo,flr,cme,spacex"
  /** The sources `space_refresh` knows, in the order its match lists them. */
  const KNOWN: seq<string> := ["apod", "neo", "flr", "cme", "spacex"]

  // ---------------------------------------------------------------- split

  /** The position of the first `c` in `s`. */
  function IndexOf(s: string, c: char): (i: nat)
    requires c in s
    ensures i < |s| && s[i] == c
    ensures forall j | 0 <= j < i :: s[j] != c
  {
    if s[0] == c then 0 else 1 + IndexOf(s[1..], c)
  }

  /** `str::split(',')`: every piece between commas, empty ones included; "" gives [""]. */
  function Split(s: string): (parts: seq<string>)
    ensures |parts| >= 1
    ensures forall k | 0 <= k < |parts| :: ',' !in parts[k]
    decreases |s|
  {
    if ',' in s then
      var i := IndexOf(s, ',');
      [s[..i]] + Split(s[i + 1..])
    else
      [s]
  }

  /** The pieces put back together with commas between them. */
  function Join(parts: seq<string>): (s: string)
    requires |parts| >= 1
  {
    if |parts| == 1 then parts[0] else parts[0] + "," + Join(parts[1..])
  }

  /** Splitting loses nothing: joining the pieces gives the text back. */
  lemma {:induction false} JoinSplit(s: string)
    ensures Join(Split(s)) == s
    decreases |s|
  {
    if ',' in s {
      var i := IndexOf(s, ',');
      var rest := Split(s[i + 1..]);
      JoinSplit(s[i + 1..]);
      assert Split(s) == [s[..i]] + rest;
      assert ([s[..i]] + rest)[1..] == rest;
      assert s == s[..i] + "," + s[i + 1..];
    }
  }

  /** Text without a comma, followed by a comma, splits there first. */
  lemma SplitAtComma(a: string, b: string)
    requires ',' !in a
    ensures Split(a + "," + b) == [a] + Split(b)
  {
    var s := a + "," + b;
    assert s[|a|] == ',';
    assert forall j | 0 <= j < |a| :: s[j] == a[j];
    var i := IndexOf(s, ',');
    assert i == |a|;
    assert s[..i] == a;
    assert s[i + 1..] == b;
  }

  /** Comma-free pieces joined and split again come back unchanged. */
  lemma {:induction false} SplitJoin(parts: seq<string>)
    requires |parts| >= 1
    requires forall k | 0 <= k < |parts| :: ',' !in parts[k]
    ensures Split(Join(parts)) == parts
  {
    if |parts| > 1 {
      SplitJoin(parts[1..]);
      SplitAtComma(parts[0], Join(parts[1..]));
      assert parts == [parts[0]] + parts[1..];
    }
  }

  // ----------------------------------------------------------------- trim

  /** Unicode White_Space, the set `char::is_whitespace` and `str::trim` use. */
  predicate IsWhiteSpace(c: char) {
    ('\U{0009}' <= c <= '\U{000D}') || c == '\U{0020}' || c == '\U{0085}' || c == '\U{00A0}'
    || c == '\U{1680}' || ('\U{2000}' <= c <= '\U{200A}') || c == '\U{2028}' || c == '\U{2029}'
    || c == '\U{202F}' || c == '\U{205F}' || c == '\U{3000}'
  }

  predicate AllWhiteSpace(s: string) {
    forall k | 0 <= k < |s| :: IsWhiteSpace(s[k])
  }

  /** `str::trim_start`: the suffix left after dropping leading white space. */
  function TrimStart(s: string): (r: string)
    ensures |r| <= |s| && r == s[|s| - |r|..]
    ensures AllWhiteSpace(s[..|s| - |r|])
    ensures |r| > 0 ==> !IsWhiteSpace(r[0])
  {
    if |s| > 0 && IsWhiteSpace(s[0]) then TrimStart(s[1..]) else s
  }

  /** `str::trim_end`: the prefix left after dropping trailing white space. */
  function TrimEnd(s: string): (r: string)
    ensures |r| <= |s| && r == s[..|r|]
    ensures AllWhiteSpace(s[|r|..])
    ensures |r| > 0 ==> !IsWhiteSpace(r[|r| - 1])
  {
    if |s| > 0 && IsWhiteSpace(s[|s| - 1]) then TrimEnd(s[..|s| - 1]) else s
  }

  /** `str::trim`. */
  function Trim(s: string): (r: string)
    ensures |r| > 0 ==> !IsWhiteSpace(r[0]) && !IsWhiteSpace(r[|r| - 1])
    ensures |r| == 0 <==> AllWhiteSpace(s)
  {
    var t := TrimStart(s);
    if |t| == 0 then
      assert s[..|s|] == s;
      t
    else
      TrimEnd(t)
  }

  lemma {:induction false} TrimStartPadding(pre: string, rest: string)
    requires AllWhiteSpace(pre)
    requires |rest| > 0 && !IsWhiteSpace(rest[0])
    ensures TrimStart(pre + rest) == rest
  {
    if |pre| > 0 {
      assert (pre + rest)[1..] == pre[1..] + rest;
      TrimStartPadding(pre[1..], rest);
    }
  }

  lemma {:induction false} TrimEndPadding(rest: string, post: string)
    requires AllWhiteSpace(post)
    requires |rest| > 0 && !IsWhiteSpace(rest[|rest| - 1])
    ensures TrimEnd(rest + post) == rest
  {
    if |post| > 0 {
      assert (rest + post)[..|rest + post| - 1] == rest + post[..|post| - 1];
      TrimEndPadding(rest, post[..|post| - 1]);
    }
  }

  /** Trim removes exactly the white space around a piece and nothing inside it. */
  lemma TrimPadding(pre: string, core: string, post: string)
    requires AllWhiteSpace(pre) && AllWhiteSpace(post)
    requires |core| > 0 && !IsWhiteSpace(core[0]) && !IsWhiteSpace(core[|core| - 1])
    ensures Trim(pre + core + post) == core
  {
    assert pre + core + post == pre + (core + post);
    TrimStartPadding(pre, core + post);
    TrimEndPadding(core, post);
  }

  // ------------------------------------------------------------ lowercase

  /**
    The effect of `to_lowercase` on one character, as far as matching the
    ASCII source names is concerned: ASCII capitals and the Kelvin sign
    (whose lower case is 'k') become ASCII; every other character stays
    outside a-z, so it is kept as it is. The one exception, U+0130 (capital
    I with dot above), lower-cases to the two characters "i\u{0307}"; the
    combining dot is not ASCII, and no known name holds an 'i', so a piece
    holding U+0130 matches no name either way, and keeping it unchanged
    decides the same.
   */
  function LowerChar(c: char): (l: char)
    ensures 'a' <= l <= 'z' ==> ('a' <= c <= 'z' || 'A' <= c <= 'Z' || c == '\U{212A}')
    ensures 'A' <= c <= 'Z' ==> 'a' <= l <= 'z' && l as int - 'a' as int == c as int - 'A' as int
    ensures c == '\U{212A}' ==> l == 'k'
    ensures !('A' <= c <= 'Z') && c != '\U{212A}' ==> l == c
  {
    if 'A' <= c <= 'Z' then (c as int + 32) as char
    else if c == '\U{212A}' then 'k'
    else c
  }

  function ToLower(s: string): (r: string)
    ensures |r| == |s|
    ensures forall k | 0 <= k < |s| :: r[k] == LowerChar(s[k])
  {
    seq(|s|, k requires 0 <= k < |s| => LowerChar(s[k]))
  }

  /** Each piece of the list as the loop matches it: trimmed, then lower-cased. */
  function Normalise(piece: string): string {
    ToLower(Trim(piece))
  }

  // ------------------------------------------------------------- handling

  /** The arms of the handler's match. */
  predicate IsKnown(name: string)
    ensures IsKnown(name) <==> name in KNOWN
  {
    name == "apod" || name == "neo" || name == "flr" || name == "cme" || name == "spacex"
  }

  /** Every piece of the list, trimmed and lower-cased. */
  function NormaliseAll(parts: seq<string>): (names: seq<string>)
    ensures |names| == |parts|
    ensures forall k | 0 <= k < |parts| :: names[k] == Normalise(parts[k])
  {
    seq(|parts|, k requires 0 <= k < |parts| => Normalise(parts[k]))
  }

  /** What the loop pushes onto `done` for normalised pieces: each known name, in order; anything else is skipped. */
  function Kept(names: seq<string>): (done: seq<string>)
    ensures |done| <= |names|
    ensures forall k | 0 <= k < |done| :: IsKnown(done[k])
  {
    if |names| == 0 then []
    else
      var last := names[|names| - 1];
      Kept(names[..|names| - 1]) + if IsKnown(last) then [last] else []
  }

  /** The names `space_refresh` reports for the pieces of its list. */
  function Recognised(parts: seq<string>): (done: seq<string>)
    ensures |done| <= |parts|
    ensures forall k | 0 <= k < |done| :: done[k] in KNOWN
  {
    Kept(NormaliseAll(parts))
  }

  lemma KeptStep(names: seq<string>, i: nat)
    requires i < |names|
    ensures Kept(names[..i + 1]) == Kept(names[..i]) + if IsKnown(names[i]) then [names[i]] else []
  {
    assert names[..i + 1][..i] == names[..i];
  }

  lemma {:induction false} KeptAppend(a: seq<string>, b: seq<string>)
    ensures Kept(a + b) == Kept(a) + Kept(b)
    decreases |b|
  {
    if |b| == 0 {
      assert a + b == a;
    } else {
      var b' := b[..|b| - 1];
      assert (a + b)[..|a + b| - 1] == a + b';
      KeptAppend(a, b');
    }
  }

  /** Handling two lists one after the other: the results are concatenated, in order, duplicates kept. */
  lemma RecognisedAppend(a: seq<string>, b: seq<string>)
    ensures Recognised(a + b) == Recognised(a) + Recognised(b)
  {
    assert NormaliseAll(a + b) == NormaliseAll(a) + NormaliseAll(b);
    KeptAppend(NormaliseAll(a), NormaliseAll(b));
  }

  /** A name is reported exactly when some piece normalises to it and it is one of the five. */
  lemma {:induction false} KeptMembers(names: seq<string>)
    ensures forall x :: x in Kept(names) <==> x in names && x in KNOWN
  {
    if |names| > 0 {
      var init := names[..|names| - 1];
      KeptMembers(init);
      assert names == init + [names[|names| - 1]];
    }
  }

  /** Only the five known names are ever reported, and every piece that names one of them is. */
  lemma RecognisedMembers(parts: seq<string>)
    ensures forall x :: x in Recognised(parts) <==> x in KNOWN && exists k | 0 <= k < |parts| :: Normalise(parts[k]) == x
  {
    var names := NormaliseAll(parts);
    KeptMembers(names);
    forall x
      ensures x in names <==> exists k | 0 <= k < |parts| :: Normalise(parts[k]) == x
    {
      if x in names {
        var k :| 0 <= k < |names| && names[k] == x;
        assert Normalise(parts[k]) == x;
      }
    }
  }

  /** A list with one piece reports its name if it is known, and nothing otherwise. */
  lemma RecognisedSingle(p: string)
    ensures Recognised([p]) == if Normalise(p) in KNOWN then [Normalise(p)] else []
  {
    KeptStep(NormaliseAll([p]), 0);
    assert NormaliseAll([p])[..0] == [];
    assert NormaliseAll([p])[..1] == NormaliseAll([p]);
  }

  /** A word padded with white space normalises to the word in lower case. */
  lemma NormaliseIgnoresPaddingAndCase(pre: string, word: string, post: string)
    requires AllWhiteSpace(pre) && AllWhiteSpace(post)
    requires |word| > 0 && !IsWhiteSpace(word[0]) && !IsWhiteSpace(word[|word| - 1])
    ensures Normalise(pre + word + post) == ToLower(word)
  {
    TrimPadding(pre, word, post);
  }

  /** `c` is the small letter `lower` or the capital at the same place in the alphabet. */
  predicate SpelledAs(c: char, lower: char) {
    c == lower || ('A' <= c <= 'Z' && c as int - 'A' as int == lower as int - 'a' as int)
  }

  /** The five names are written in small ASCII letters only. */
  lemma KnownNamesAreSmallLetters(name: string)
    requires name in KNOWN
    ensures forall k | 0 <= k < |name| :: 'a' <= name[k] <= 'z'
  {
    assert name == KNOWN[0] || name == KNOWN[1] || name == KNOWN[2] || name == KNOWN[3] || name == KNOWN[4];
  }

  /** Lower-casing a spelling of a small-letter word gives back that word. */
  lemma ToLowerSpelled(w: string, word: string)
    requires |w| == |word| && forall k | 0 <= k < |word| :: 'a' <= word[k] <= 'z'
    requires forall k | 0 <= k < |w| :: SpelledAs(w[k], word[k])
    ensures ToLower(w) == word
  {
    forall k | 0 <= k < |w|
      ensures ToLower(w)[k] == word[k]
    {
      assert SpelledAs(w[k], word[k]);
    }
  }

  /** A known name spelled in any mix of capitals and small letters, padded with white space, is recognised as that name. */
  lemma NormaliseAnyCase(pre: string, w: string, post: string, name: string)
    requires name in KNOWN
    requires AllWhiteSpace(pre) && AllWhiteSpace(post)
    requires |w| == |name| && forall k | 0 <= k < |w| :: SpelledAs(w[k], name[k])
    ensures Normalise(pre + w + post) == name
  {
    KnownNamesAreSmallLetters(name);
    ToLowerSpelled(w, name);
    assert SpelledAs(w[0], name[0]) && SpelledAs(w[|w| - 1], name[|w| - 1]);
    NormaliseIgnoresPaddingAndCase(pre, w, post);
  }

  lemma TrimUnpadded(w: string)
    requires |w| > 0 && !IsWhiteSpace(w[0]) && !IsWhiteSpace(w[|w| - 1])
    ensures Trim(w) == w
  {
    TrimPadding("", w, "");
    assert "" + w + "" == w;
  }

  /** A word of lower-case ASCII letters is its own normal form. */
  lemma NormaliseLowerWord(w: string)
    requires |w| > 0 && forall k | 0 <= k < |w| :: 'a' <= w[k] <= 'z'
    ensures Normalise(w) == w
  {
    TrimUnpadded(w);
    assert ToLower(w) == w;
  }

  /** Known names are each kept as themselves. */
  lemma {:induction false} KeptKnownNames(names: seq<string>)
    requires forall k | 0 <= k < |names| :: names[k] in KNOWN
    ensures Kept(names) == names
  {
    if |names| > 0 {
      var init := names[..|names| - 1];
      assert forall k | 0 <= k < |init| :: init[k] == names[k];
      KeptKnownNames(init);
      assert names == init + [names[|names| - 1]];
    }
  }

  /** The default list splits into the five names. */
  lemma DefaultSplit()
    ensures Split(DEFAULT_SOURCES) == KNOWN
  {
    assert Join(KNOWN) == DEFAULT_SOURCES;
    SplitJoin(KNOWN);
  }

  lemma KnownLowerWord(k: nat)
    requires k < |KNOWN|
    ensures |KNOWN[k]| > 0 && forall j | 0 <= j < |KNOWN[k]| :: 'a' <= KNOWN[k][j] <= 'z'
  {
  }

  /** Each known name, written as it is, is its own normal form. */
  lemma KnownNormalised()
    ensures NormaliseAll(KNOWN) == KNOWN
  {
    forall k | 0 <= k < |KNOWN|
      ensures Normalise(KNOWN[k]) == KNOWN[k]
    {
      KnownLowerWord(k);
      NormaliseLowerWord(KNOWN[k]);
    }
  }

  /** Without `src`, all five sources are refreshed, in the order apod, neo, flr, cme, spacex. */
  lemma DefaultRefreshesAll()
    ensures Recognised(Split(DEFAULT_SOURCES)) == KNOWN
  {
    assert Kept(KNOWN) == KNOWN by {
      KeptKnownNames(KNOWN);
    }
    KnownNormalised();
    DefaultSplit();
  }

  // ------------------------------------------------------------- response

  /** The source list the handler splits: `src` if given, the five names otherwise. */
  function SourceList(query: map<string, string>): (list: string)
    ensures SRC_PARAM in query ==> list == query[SRC_PARAM]
    ensures SRC_PARAM !in query ==> list == DEFAULT_SOURCES
  {
    if SRC_PARAM in query then query[SRC_PARAM] else DEFAULT_SOURCES
  }

  /** `json!({ "refreshed": done })`. */
  function RefreshedBody(done: seq<string>): (v: Value)
    ensures v.Object? && v.fields.Keys == {REFRESHED_KEY}
    ensures v.fields[REFRESHED_KEY].Array? && |v.fields[REFRESHED_KEY].elems| == |done|
    ensures forall k | 0 <= k < |done| :: v.fields[REFRESHED_KEY].elems[k] == Str(done[k])
  {
    Object(map[REFRESHED_KEY := Array(seq(|done|, k requires 0 <= k < |done| => Str(done[k])))])
  }

  /** Reads the names back out of a refresh answer. */
  function RefreshedNames(v: Value): Option<seq<string>> {
    var field := Get(v, REFRESHED_KEY);
    if field.Some? && field.value.Array? && forall k | 0 <= k < |field.value.elems| :: field.value.elems[k].Str? then
      var elems := field.value.elems;
      Some(seq(|elems|, k requires 0 <= k < |elems| => elems[k].s))
    else
      None
  }

  /** The answer carries the handled names, in order, and nothing else can be read as them. */
  lemma RefreshedBodyRoundTrip(done: seq<string>)
    ensures RefreshedNames(RefreshedBody(done)) == Some(done)
  {
    var elems := seq(|done|, k requires 0 <= k < |done| => Str(done[k]));
    assert Get(RefreshedBody(done), REFRESHED_KEY) == Some(Array(elems));
    assert forall k | 0 <= k < |elems| :: elems[k].Str?;
    assert seq(|elems|, k requires 0 <= k < |elems| => elems[k].s) == done;
  }

  /** `answers` are what the fetchers of `done` answered, one each, in order. */
  predicate AnswersOf(fetch: string -> Result<Value, ApiError>, done: seq<string>, answers: seq<Result<Value, ApiError>>) {
    |answers| == |done| && forall k | 0 <= k < |done| :: answers[k] == fetch(done[k])
  }

  lemma AnswersOfAppend(
    fetch: string -> Result<Value, ApiError>, done: seq<string>, answers: seq<Result<Value, ApiError>>,
    handled: seq<string>, more: seq<Result<Value, ApiError>>)
    requires AnswersOf(fetch, done, answers) && AnswersOf(fetch, handled, more)
    ensures AnswersOf(fetch, done + handled, answers + more)
  {
  }

  /**
    The loop's match on one normalised piece: the arm of a known name calls
    that source's fetcher and pushes the name onto `done`; any other piece
    does nothing. `answered` is what the fetcher called answered (nothing
    when none is called), which the handler discards.
   */
  method Dispatch(s: string, fetch: string -> Result<Value, ApiError>)
    returns (handled: seq<string>, answered: seq<Result<Value, ApiError>>)
    ensures handled == if s in KNOWN then [s] else []
    ensures answered == if s in KNOWN then [fetch(s)] else []
    ensures AnswersOf(fetch, handled, answered)
  {
    if s == "apod" {
      answered := [fetch("apod")];
      handled := ["apod"];
    } else if s == "neo" {
      answered := [fetch("neo")];
      handled := ["neo"];
    } else if s == "flr" {
      answered := [fetch("flr")];
      handled := ["flr"];
    } else if s == "cme" {
      answered := [fetch("cme")];
      handled := ["cme"];
    } else if s == "spacex" {
      answered := [fetch("spacex")];
      handled := ["spacex"];
    } else {
      answered := [];
      handled := [];
    }
  }

  /** `piece.trim().to_lowercase()`. */
  method NormalisePiece(piece: string) returns (s: string)
    ensures s == Normalise(piece)
  {
    s := Trim(piece);
    s := ToLower(s);
  }

  /**
    The handler's loop over the pieces of the list: each piece is trimmed,
    lower-cased and matched; `done` collects the known names, and `answers`
    what their fetchers answered, in order.
   */
  method HandlePieces(parts: seq<string>, fetch: string -> Result<Value, ApiError>)
    returns (done: seq<string>, answers: seq<Result<Value, ApiError>>)
    ensures done == Recognised(parts)
    ensures AnswersOf(fetch, done, answers)
  {
    ghost var names := NormaliseAll(parts);
    done, answers := [], [];
    for i := 0 to |parts|
      invariant done == Kept(names[..i])
      invariant AnswersOf(fetch, done, answers)
    {
      KeptStep(names, i);
      var s := NormalisePiece(parts[i]);
      var handled, answered := Dispatch(s, fetch);
      AnswersOfAppend(fetch, done, answers, handled, answered);
      done := done + handled;
      answers := answers + answered;
    }
    assert names[..|parts|] == names;
  }

  /**
    The handler. `fetch(name)` is what the fetcher of source `name` answers;
    `answers` holds what the fetchers called answered, one per handled
    piece, in order. The answers are discarded, so the result depends on the
    query alone and is always a success, even when every fetch fails.
   */
  method SpaceRefresh(query: map<string, string>, fetch: string -> Result<Value, ApiError>)
    returns (r: ApiResult<Value>, answers: seq<Result<Value, ApiError>>)
    ensures AnswersOf(fetch, Recognised(Split(SourceList(query))), answers)
    ensures r == OkResult(RefreshedBody(Recognised(Split(SourceList(query)))))
  {
    var done;
    done, answers := HandlePieces(Split(SourceList(query)), fetch);
    r := OkResult(RefreshedBody(done));
  }
}
