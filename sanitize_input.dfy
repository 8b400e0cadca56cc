/**
 * The request sanitiser of src/middlewares/sanitizeInput.ts.
 *
 * `sanitizeString` replaces each run of tab/CR/LF with one space, then each run of
 * white space with one space, then trims. `sanitizeObject` walks a JSON-like value:
 * strings are sanitised, arrays are mapped into new arrays, plain objects are rewritten
 * in place key by key, and every other value is returned as it is.
 */
module SanitizeInput {
  import opened JsStrings
  import JsParseInt

  // ----- sanitizeString -----

  /** The two character classes the source replaces: `[\t\r\n]` and `\s`. */
  datatype CharClass = LineBreaks | AnyWhiteSpace

  predicate InClass(c: char, cls: CharClass) {
    match cls
    case LineBreaks => c == '\t' || c == '\r' || c == '\n'
    case AnyWhiteSpace => IsWhiteSpace(c)
  }

  /**
   * `s.replace(/[class]+/g, ' ')`: every maximal run of characters of the class becomes
   * one space. `inRun` says that the character before `s` belonged to a run already
   * replaced, so a run continuing at the start of `s` adds nothing more.
   */
  function ReplaceRuns(s: string, cls: CharClass, inRun: bool): (r: string)
    ensures forall i :: 0 <= i < |r| && InClass(r[i], cls) ==> r[i] == ' '
    ensures forall i :: 0 < i < |r| ==> !(InClass(r[i - 1], cls) && InClass(r[i], cls))
    ensures inRun && r != [] ==> !InClass(r[0], cls)
    ensures NonWhiteSpace(r) == NonWhiteSpace(s)
  {
    if s == [] then []
    else if InClass(s[0], cls) then
      var lead := if inRun then [] else [' '];
      var rest := ReplaceRuns(s[1..], cls, true);
      NonWhiteSpaceAppend(lead, rest);
      lead + rest
    else
      var rest := ReplaceRuns(s[1..], cls, false);
      NonWhiteSpaceAppend([s[0]], rest);
      [s[0]] + rest
  }

  /** What sanitizeString guarantees of its output. */
  predicate IsCleanString(s: string) {
    SingleSpaced(s) && (s == [] || (!IsWhiteSpace(s[0]) && !IsWhiteSpace(s[|s| - 1])))
  }

  /**
   * `sanitizeString`: the only white space left is single plain spaces between
   * non-blank characters, and the non-blank characters are exactly those of the input.
   */
  function SanitizeString(s: string): (r: string)
    ensures IsCleanString(r)
    ensures NonWhiteSpace(r) == NonWhiteSpace(s)
  {
    var collapsed := ReplaceRuns(ReplaceRuns(s, LineBreaks, false), AnyWhiteSpace, false);
    TrimKeepsSpacing(collapsed);
    Trim(collapsed)
  }

  /** Blanks are single spaces: what ReplaceRuns leaves behind for the class `\s`. */
  predicate SingleSpaced(s: string) {
    && (forall i :: 0 <= i < |s| && IsWhiteSpace(s[i]) ==> s[i] == ' ')
    && (forall i :: 0 < i < |s| ==> !(IsWhiteSpace(s[i - 1]) && IsWhiteSpace(s[i])))
  }

  lemma SingleSpacedSlice(s: string, a: nat, b: nat)
    requires a <= b <= |s| && SingleSpaced(s)
    ensures SingleSpaced(s[a..b])
  {
    var t := s[a..b];
    forall i | 0 < i < |t| ensures !(IsWhiteSpace(t[i - 1]) && IsWhiteSpace(t[i])) {
      assert t[i - 1] == s[a + i - 1] && t[i] == s[a + i];
    }
  }

  /** Trimming a string whose blanks are single spaces gives a clean string. */
  lemma TrimKeepsSpacing(c: string)
    requires SingleSpaced(c)
    ensures IsCleanString(Trim(c))
  {
    var t := TrimStart(c);
    SingleSpacedSlice(c, |c| - |t|, |c|);
    SingleSpacedSlice(t, 0, |TrimEnd(t)|);
  }

  /** ReplaceRuns leaves alone a string with no run to shorten. */
  lemma {:induction false} ReplaceRunsFixes(s: string, cls: CharClass, inRun: bool)
    requires forall i :: 0 <= i < |s| && InClass(s[i], cls) ==> s[i] == ' '
    requires forall i :: 0 < i < |s| ==> !(InClass(s[i - 1], cls) && InClass(s[i], cls))
    requires inRun && s != [] ==> !InClass(s[0], cls)
    ensures ReplaceRuns(s, cls, inRun) == s
  {
    if s != [] {
      assert forall i :: 0 < i < |s[1..]| ==> s[1..][i - 1] == s[i] && s[1..][i] == s[i + 1];
      ReplaceRunsFixes(s[1..], cls, InClass(s[0], cls));
    }
  }

  /** A clean string is left unchanged. */
  lemma SanitizeStringFixesClean(s: string)
    requires IsCleanString(s)
    ensures SanitizeString(s) == s
  {
    ReplaceRunsFixes(s, LineBreaks, false);
    ReplaceRunsFixes(s, AnyWhiteSpace, false);
  }

  /** sanitizeString leaves exactly the clean strings unchanged. */
  lemma SanitizeStringFixedPoints(s: string)
    ensures SanitizeString(s) == s <==> IsCleanString(s)
  {
    if IsCleanString(s) {
      SanitizeStringFixesClean(s);
    }
  }

  /** Sanitising twice is sanitising once. */
  lemma SanitizeStringIdempotent(s: string)
    ensures SanitizeString(SanitizeString(s)) == SanitizeString(s)
  {
    SanitizeStringFixesClean(SanitizeString(s));
  }

  /** No tab, carriage return or line feed survives, nor any blank other than a single space between words. */
  lemma SanitizedStringShape(s: string)
    ensures var r := SanitizeString(s);
      forall i :: 0 <= i < |r| ==> r[i] != '\t' && r[i] != '\r' && r[i] != '\n'
    ensures var r := SanitizeString(s);
      forall i :: 0 <= i < |r| - 1 ==> !(IsWhiteSpace(r[i]) && IsWhiteSpace(r[i + 1]))
    ensures var r := SanitizeString(s);
      r != [] ==> !IsWhiteSpace(r[0]) && !IsWhiteSpace(r[|r| - 1])
  {
    CleanStringShape(SanitizeString(s));
  }

  lemma CleanStringShape(r: string)
    requires IsCleanString(r)
    ensures forall i :: 0 <= i < |r| ==> r[i] != '\t' && r[i] != '\r' && r[i] != '\n'
    ensures forall i :: 0 <= i < |r| - 1 ==> !(IsWhiteSpace(r[i]) && IsWhiteSpace(r[i + 1]))
    ensures r != [] ==> !IsWhiteSpace(r[0]) && !IsWhiteSpace(r[|r| - 1])
  {
    assert SingleSpaced(r);
    forall i | 0 <= i < |r| ensures r[i] != '\t' && r[i] != '\r' && r[i] != '\n' {
      if !IsWhiteSpace(r[i]) {
        assert r[i] != '\t' && r[i] != '\r' && r[i] != '\n';
      }
    }
    forall i | 0 <= i < |r| - 1 ensures !(IsWhiteSpace(r[i]) && IsWhiteSpace(r[i + 1])) {
      assert i + 1 > 0;
    }
  }

  /** The result is empty exactly when the input is blank. */
  lemma SanitizeStringEmptyIffBlank(s: string)
    ensures SanitizeString(s) == [] <==> forall i :: 0 <= i < |s| ==> IsWhiteSpace(s[i])
  {
    var r := SanitizeString(s);
    if forall i :: 0 <= i < |s| ==> IsWhiteSpace(s[i]) {
      NonWhiteSpaceOfBlank(s);
    } else {
      var i :| 0 <= i < |s| && !IsWhiteSpace(s[i]);
      NonWhiteSpaceOfText(s, i);
    }
  }

  // ----- a reference definition: the words of the input joined by single spaces -----

  /** A word: a non-empty run of characters none of which is white space. */
  predicate IsWord(w: string) {
    w != [] && forall i :: 0 <= i < |w| ==> !IsWhiteSpace(w[i])
  }

  /**
   * The words of `s`, in order, when `word` holds the letters of a word begun before `s`
   * (what `s.split(/\s+/)` gives once empty pieces are dropped).
   */
  function WordsFrom(s: string, word: string): (ws: seq<string>)
    requires word == [] || IsWord(word)
    ensures forall j :: 0 <= j < |ws| ==> IsWord(ws[j])
  {
    if s == [] then (if word == [] then [] else [word])
    else if IsWhiteSpace(s[0]) then (if word == [] then [] else [word]) + WordsFrom(s[1..], [])
    else WordsFrom(s[1..], word + [s[0]])
  }

  function Words(s: string): seq<string> {
    WordsFrom(s, [])
  }

  /** `ws.join(" ")`. */
  function JoinWords(ws: seq<string>): string {
    if ws == [] then [] else if |ws| == 1 then ws[0] else ws[0] + " " + JoinWords(ws[1..])
  }

  // ----- a reference definition for replace: split on the runs, join with one space -----

  /** `s` without its leading run of characters of the class. */
  function SkipRun(s: string, cls: CharClass): (r: string)
    ensures |r| <= |s| && r == s[|s| - |r|..]
    ensures forall i :: 0 <= i < |s| - |r| ==> InClass(s[i], cls)
    ensures r == [] || !InClass(r[0], cls)
  {
    if s != [] && InClass(s[0], cls) then SkipRun(s[1..], cls) else s
  }

  /**
   * `s.split(/[class]+/)` when `piece` holds the characters of a piece begun before `s`:
   * the pieces between maximal runs of the class, including the empty piece a run at
   * either end leaves behind.
   */
  function SplitFrom(s: string, cls: CharClass, piece: string): (ps: seq<string>)
    ensures ps != []
    decreases |s|
  {
    if s == [] then [piece]
    else if InClass(s[0], cls) then [piece] + SplitFrom(SkipRun(s[1..], cls), cls, [])
    else SplitFrom(s[1..], cls, piece + [s[0]])
  }

  function SplitRuns(s: string, cls: CharClass): seq<string> {
    SplitFrom(s, cls, [])
  }

  lemma {:induction false} ReplaceRunsInRun(s: string, cls: CharClass)
    ensures ReplaceRuns(s, cls, true) == ReplaceRuns(SkipRun(s, cls), cls, false)
  {
    if s != [] && InClass(s[0], cls) {
      ReplaceRunsInRun(s[1..], cls);
    }
  }

  lemma {:induction false} ReplaceRunsSplitsFrom(s: string, cls: CharClass, piece: string)
    ensures piece + ReplaceRuns(s, cls, false) == JoinWords(SplitFrom(s, cls, piece))
    decreases |s|
  {
    if s == [] {
      assert piece + [] == piece;
    } else if InClass(s[0], cls) {
      var rest := SkipRun(s[1..], cls);
      var ps := SplitFrom(rest, cls, []);
      assert ([piece] + ps)[1..] == ps;
      calc {
        piece + ReplaceRuns(s, cls, false);
        piece + (" " + ReplaceRuns(s[1..], cls, true));
        { ReplaceRunsInRun(s[1..], cls); }
        piece + (" " + ReplaceRuns(rest, cls, false));
        { assert [] + ReplaceRuns(rest, cls, false) == ReplaceRuns(rest, cls, false);
          ReplaceRunsSplitsFrom(rest, cls, []); }
        piece + (" " + JoinWords(ps));
        piece + " " + JoinWords(ps);
        JoinWords([piece] + ps);
      }
    } else {
      calc {
        piece + ReplaceRuns(s, cls, false);
        piece + ([s[0]] + ReplaceRuns(s[1..], cls, false));
        (piece + [s[0]]) + ReplaceRuns(s[1..], cls, false);
        { ReplaceRunsSplitsFrom(s[1..], cls, piece + [s[0]]); }
        JoinWords(SplitFrom(s[1..], cls, piece + [s[0]]));
      }
    }
  }

  /**
   * `replace(/[class]+/g, ' ')` is `split(/[class]+/).join(' ')`: each maximal run becomes
   * exactly one space and every other character stays where it was.
   */
  lemma ReplaceRunsSplits(s: string, cls: CharClass)
    ensures ReplaceRuns(s, cls, false) == JoinWords(SplitRuns(s, cls))
  {
    ReplaceRunsSplitsFrom(s, cls, []);
    assert [] + ReplaceRuns(s, cls, false) == ReplaceRuns(s, cls, false);
  }

  /** Replacing runs of white space by one space does not change the words. */
  lemma {:induction false} ReplaceRunsKeepsWords(s: string, cls: CharClass, inRun: bool, word: string)
    requires word == [] || IsWord(word)
    requires inRun ==> word == []
    ensures WordsFrom(ReplaceRuns(s, cls, inRun), word) == WordsFrom(s, word)
  {
    if s != [] {
      var rest := s[1..];
      if InClass(s[0], cls) {
        ReplaceRunsKeepsWords(rest, cls, true, []);
        var tail := ReplaceRuns(rest, cls, true);
        assert WordsFrom(s, word) == (if word == [] then [] else [word]) + WordsFrom(rest, []);
        if inRun {
          assert ReplaceRuns(s, cls, inRun) == tail;
        } else {
          var r := [' '] + tail;
          assert r[0] == ' ' && r[1..] == tail;
          assert WordsFrom(r, word) == (if word == [] then [] else [word]) + WordsFrom(tail, []);
        }
      } else {
        var r := [s[0]] + ReplaceRuns(rest, cls, false);
        assert r[0] == s[0] && r[1..] == ReplaceRuns(rest, cls, false);
        if IsWhiteSpace(s[0]) {
          ReplaceRunsKeepsWords(rest, cls, false, []);
        } else {
          ReplaceRunsKeepsWords(rest, cls, false, word + [s[0]]);
        }
      }
    }
  }

  lemma {:induction false} TrimStartKeepsWords(s: string)
    ensures Words(TrimStart(s)) == Words(s)
  {
    if s != [] && IsWhiteSpace(s[0]) {
      TrimStartKeepsWords(s[1..]);
    }
  }

  lemma {:induction false} TrailingBlankKeepsWords(s: string, c: char, word: string)
    requires IsWhiteSpace(c)
    requires word == [] || IsWord(word)
    ensures WordsFrom(s + [c], word) == WordsFrom(s, word)
  {
    if s == [] {
      assert s + [c] == [c];
    } else {
      assert (s + [c])[0] == s[0] && (s + [c])[1..] == s[1..] + [c];
      if IsWhiteSpace(s[0]) {
        TrailingBlankKeepsWords(s[1..], c, []);
      } else {
        TrailingBlankKeepsWords(s[1..], c, word + [s[0]]);
      }
    }
  }

  lemma {:induction false} TrimEndKeepsWords(s: string)
    ensures Words(TrimEnd(s)) == Words(s)
  {
    if s != [] && IsWhiteSpace(s[|s| - 1]) {
      var init := s[..|s| - 1];
      TrimEndKeepsWords(init);
      assert s == init + [s[|s| - 1]];
      TrailingBlankKeepsWords(init, s[|s| - 1], []);
    }
  }

  /** A clean string is its own words joined by single spaces (shown with a word in progress). */
  lemma {:induction false} CleanIsJoinedWords(t: string, word: string)
    requires word == [] || IsWord(word)
    requires SingleSpaced(t)
    requires t == [] || !IsWhiteSpace(t[|t| - 1])
    requires t != [] && IsWhiteSpace(t[0]) ==> word != []
    requires word == [] ==> t == [] || !IsWhiteSpace(t[0])
    ensures JoinWords(WordsFrom(t, word)) == word + t
  {
    if t == [] {
      assert word + t == word;
    } else {
      var rest := t[1..];
      assert SingleSpaced(rest) by {
        forall i | 0 < i < |rest| ensures !(IsWhiteSpace(rest[i - 1]) && IsWhiteSpace(rest[i])) {
          assert rest[i - 1] == t[i] && rest[i] == t[i + 1];
        }
      }
      if IsWhiteSpace(t[0]) {
        assert rest != [] && !IsWhiteSpace(rest[0]) by {
          assert 0 < 1 < |t|;
        }
        CleanIsJoinedWords(rest, []);
        var ws := WordsFrom(rest, []);
        assert ws != [];
        assert WordsFrom(t, word) == [word] + ws;
        assert ([word] + ws)[1..] == ws;
        assert t == " " + rest;
      } else {
        CleanIsJoinedWords(rest, word + [t[0]]);
        assert word + [t[0]] + rest == word + t;
      }
    }
  }

  /** sanitizeString keeps the words of its input. */
  lemma SanitizeStringKeepsWords(s: string)
    ensures Words(SanitizeString(s)) == Words(s)
  {
    var once := ReplaceRuns(s, LineBreaks, false);
    var twice := ReplaceRuns(once, AnyWhiteSpace, false);
    ReplaceRunsKeepsWords(s, LineBreaks, false, []);
    ReplaceRunsKeepsWords(once, AnyWhiteSpace, false, []);
    TrimStartKeepsWords(twice);
    TrimEndKeepsWords(TrimStart(twice));
  }

  /** sanitizeString is "split into words, join with one space". */
  lemma SanitizeStringJoinsWords(s: string)
    ensures SanitizeString(s) == JoinWords(Words(s))
  {
    SanitizeStringKeepsWords(s);
    CleanJoinsOwnWords(SanitizeString(s));
  }

  lemma CleanJoinsOwnWords(t: string)
    requires IsCleanString(t)
    ensures JoinWords(Words(t)) == t
  {
    CleanIsJoinedWords(t, []);
    assert [] + t == t;
  }

  /** The first word is the word begun so far followed by the leading word of the rest. */
  lemma {:induction false} FirstWordFrom(s: string, word: string)
    requires IsWord(word)
    ensures WordsFrom(s, word) != [] && WordsFrom(s, word)[0] == word + LeadingWord(s)
  {
    if s == [] {
      assert word + [] == word;
    } else if !IsWhiteSpace(s[0]) {
      FirstWordFrom(s[1..], word + [s[0]]);
      assert word + [s[0]] + LeadingWord(s[1..]) == word + LeadingWord(s);
    }
  }

  /** What parseInt reads, the leading word after the blanks, is the first of the words. */
  lemma {:induction false} LeadingWordIsFirstWord(s: string)
    ensures LeadingWord(TrimStart(s)) == if Words(s) == [] then [] else Words(s)[0]
  {
    if s != [] {
      if IsWhiteSpace(s[0]) {
        LeadingWordIsFirstWord(s[1..]);
      } else {
        FirstWordFrom(s[1..], [s[0]]);
        assert [] + [s[0]] == [s[0]];
      }
    }
  }

  /** The text parseInt would read is the same before and after sanitizeString. */
  lemma SanitizeStringKeepsLeadingWord(s: string)
    ensures LeadingWord(TrimStart(SanitizeString(s))) == LeadingWord(TrimStart(s))
  {
    SanitizeStringKeepsWords(s);
    LeadingWordIsFirstWord(s);
    LeadingWordIsFirstWord(SanitizeString(s));
  }

  /** parseInt reads the same number from a string and from its sanitised form. */
  lemma SanitizeStringKeepsParseInt(s: string)
    ensures JsParseInt.ParseInt(SanitizeString(s)) == JsParseInt.ParseInt(s)
  {
    SanitizeStringKeepsLeadingWord(s);
    JsParseInt.ParseIntReadsFirstWord(s);
    JsParseInt.ParseIntReadsFirstWord(SanitizeString(s));
  }

  /** A leading run of white space ends the word in progress and adds nothing else. */
  lemma {:induction false} BlankThenWords(b: string, s: string, word: string)
    requires b != [] && forall i :: 0 <= i < |b| ==> IsWhiteSpace(b[i])
    requires word == [] || IsWord(word)
    ensures WordsFrom(b + s, word) == (if word == [] then [] else [word]) + Words(s)
  {
    assert (b + s)[0] == b[0] && (b + s)[1..] == b[1..] + s;
    if |b| == 1 {
      assert b[1..] + s == s;
    } else {
      BlankThenWords(b[1..], s, []);
    }
  }

  /** Characters that are not white space extend the word in progress. */
  lemma {:induction false} LettersThenWords(w: string, s: string, word: string)
    requires forall i :: 0 <= i < |w| ==> !IsWhiteSpace(w[i])
    requires word == [] || IsWord(word)
    ensures WordsFrom(w + s, word) == WordsFrom(s, word + w)
  {
    if w == [] {
      assert w + s == s && word + w == word;
    } else {
      assert (w + s)[0] == w[0] && (w + s)[1..] == w[1..] + s;
      LettersThenWords(w[1..], s, word + [w[0]]);
      assert word + [w[0]] + w[1..] == word + w;
    }
  }

  /** A word followed by white space, or by nothing, is that one word. */
  lemma WordThenBlank(w: string, trail: string)
    requires IsWord(w)
    requires forall i :: 0 <= i < |trail| ==> IsWhiteSpace(trail[i])
    ensures Words(w + trail) == [w]
  {
    LettersThenWords(w, trail, []);
    assert [] + w == w;
    if trail == [] {
      assert WordsFrom(trail, w) == [w];
    } else {
      BlankThenWords(trail, [], w);
      assert trail + [] == trail;
      assert Words([]) == [];
    }
  }

  /** Two words separated by white space. */
  lemma TwoWords(first: string, gap: string, second: string, trail: string)
    requires gap != [] && forall i :: 0 <= i < |gap| ==> IsWhiteSpace(gap[i])
    requires forall i :: 0 <= i < |trail| ==> IsWhiteSpace(trail[i])
    requires IsWord(first) && IsWord(second)
    ensures Words(first + (gap + (second + trail))) == [first, second]
  {
    LettersThenWords(first, gap + (second + trail), []);
    assert [] + first == first;
    BlankThenWords(gap, second + trail, first);
    WordThenBlank(second, trail);
  }

  /**
   * Two words with white space around and between them come out as the two words joined
   * by one space; "  a\t\tb\n" becomes "a b".
   */
  lemma SanitizeTwoWords(lead: string, first: string, gap: string, second: string, trail: string)
    requires forall i :: 0 <= i < |lead| ==> IsWhiteSpace(lead[i])
    requires gap != [] && forall i :: 0 <= i < |gap| ==> IsWhiteSpace(gap[i])
    requires forall i :: 0 <= i < |trail| ==> IsWhiteSpace(trail[i])
    requires IsWord(first) && IsWord(second)
    ensures SanitizeString(lead + first + gap + second + trail) == first + " " + second
  {
    var s := lead + first + gap + second + trail;
    assert Words(s) == [first, second] by {
      var rest := first + (gap + (second + trail));
      TwoWords(first, gap, second, trail);
      assert s == lead + rest;
      if lead == [] {
        assert s == rest;
      } else {
        BlankThenWords(lead, rest, []);
      }
    }
    SanitizeStringJoinsWords(s);
    JoinTwoWords(first, second);
  }

  lemma JoinTwoWords(first: string, second: string)
    ensures JoinWords([first, second]) == first + " " + second
  {
    assert [first, second][1..] == [second];
  }

  // ----- sanitizeObject -----

  /** The values a parsed request body, query or parameter set can hold. */
  datatype Json =
    | JNull
    | JBool(b: bool)
    | JNumber(n: real)
    | JString(s: string)
    | JArray(items: seq<Json>)
    | JObject(props: map<string, Json>)

  /** JavaScript truthiness, as `if (req.body)` tests it. */
  predicate Truthy(v: Json) {
    match v
    case JNull => false
    case JBool(b) => b
    case JNumber(n) => n != 0.0
    case JString(s) => s != []
    case _ => true
  }

  /**
   * Same skeleton: arrays of the same length, objects with the same keys, strings in the
   * same places, and every other leaf equal.
   */
  predicate SameShape(a: Json, b: Json) {
    match a
    case JString(_) => b.JString?
    case JArray(xs) =>
      b.JArray? && |xs| == |b.items| && forall i :: 0 <= i < |xs| ==> SameShape(xs[i], b.items[i])
    case JObject(p) =>
      b.JObject? && p.Keys == b.props.Keys && forall k :: k in p ==> SameShape(p[k], b.props[k])
    case _ => a == b
  }

  /**
   * The value `sanitizeObject(v)` returns: the same skeleton as `v`, with every string
   * leaf clean.
   */
  function Sanitized(v: Json): (r: Json)
    ensures v.JString? <==> r.JString?
    ensures !v.JString? && !v.JArray? && !v.JObject? ==> r == v
  {
    match v
    case JString(s) => JString(SanitizeString(s))
    case JArray(items) => JArray(seq(|items|, i requires 0 <= i < |items| => Sanitized(items[i])))
    case JObject(props) => JObject(map k | k in props :: Sanitized(props[k]))
    case _ => v
  }

  /**
   * The argument of `sanitizeObject(v)` as its owner sees it after the call, the return
   * value being dropped: objects were rewritten in place, arrays were only copied (so their
   * own elements stay, though objects inside them were rewritten), strings are immutable.
   */
  function AfterInPlace(v: Json): (r: Json)
    ensures v.JObject? ==> r == Sanitized(v)
    ensures !v.JArray? && !v.JObject? ==> r == v
  {
    match v
    case JArray(items) => JArray(seq(|items|, i requires 0 <= i < |items| => AfterInPlace(items[i])))
    case JObject(_) => Sanitized(v)
    case _ => v
  }

  /** Every string leaf is clean. */
  predicate IsClean(v: Json) {
    match v
    case JString(s) => IsCleanString(s)
    case JArray(items) => forall i :: 0 <= i < |items| ==> IsClean(items[i])
    case JObject(props) => forall k :: k in props ==> IsClean(props[k])
    case _ => true
  }

  /** sanitizeObject keeps the skeleton of its argument and leaves every string in it clean. */
  lemma {:induction false} SanitizedIsClean(v: Json)
    ensures SameShape(v, Sanitized(v))
    ensures IsClean(Sanitized(v))
  {
    match v
    case JString(s) =>
    case JArray(items) =>
      forall i | 0 <= i < |items|
        ensures SameShape(items[i], Sanitized(items[i])) && IsClean(Sanitized(items[i]))
      {
        SanitizedIsClean(items[i]);
      }
    case JObject(props) =>
      forall k | k in props
        ensures SameShape(props[k], Sanitized(props[k])) && IsClean(Sanitized(props[k]))
      {
        SanitizedIsClean(props[k]);
      }
    case _ =>
  }

  /** Sanitising leaves a value whose strings are all clean unchanged. */
  lemma {:induction false} SanitizedFixesClean(v: Json)
    requires IsClean(v)
    ensures Sanitized(v) == v
  {
    match v
    case JString(s) =>
      SanitizeStringFixesClean(s);
    case JArray(items) =>
      forall i | 0 <= i < |items| ensures Sanitized(items[i]) == items[i] {
        SanitizedFixesClean(items[i]);
      }
      assert Sanitized(v).items == items;
    case JObject(props) =>
      forall k | k in props ensures Sanitized(props[k]) == props[k] {
        SanitizedFixesClean(props[k]);
      }
      assert Sanitized(v).props == props;
    case _ =>
  }

  /** sanitizeObject returns its argument unchanged exactly when every string in it is clean. */
  lemma SanitizedFixedPoints(v: Json)
    ensures Sanitized(v) == v <==> IsClean(v)
  {
    SanitizedIsClean(v);
    if IsClean(v) {
      SanitizedFixesClean(v);
    }
  }

  /** Sanitising a sanitised value changes nothing. */
  lemma SanitizedIdempotent(v: Json)
    ensures Sanitized(Sanitized(v)) == Sanitized(v)
  {
    SanitizedIsClean(v);
    SanitizedFixesClean(Sanitized(v));
  }

  /**
   * The `if (req.body)` guards skip only scalars: every array and object is truthy, even an
   * empty one, and a scalar is left as it is whether or not the guard lets it through.
   */
  lemma GuardSkipsOnlyScalars(v: Json)
    ensures !Truthy(v) ==> !v.JArray? && !v.JObject?
    ensures !v.JArray? && !v.JObject? ==> AfterInPlace(v) == v
  {
  }

  /**
   * A top-level array keeps its own string elements (the cleaned copy is dropped), while
   * objects inside it are cleaned where they are.
   */
  lemma TopLevelArray(items: seq<Json>)
    ensures AfterInPlace(JArray(items)).items == seq(|items|, i requires 0 <= i < |items| => AfterInPlace(items[i]))
    ensures forall i :: 0 <= i < |items| && items[i].JString? ==> AfterInPlace(JArray(items)).items[i] == items[i]
    ensures forall i :: 0 <= i < |items| && items[i].JObject? ==> AfterInPlace(JArray(items)).items[i] == Sanitized(items[i])
  {
  }

  /** Running the sanitiser a second time over the same request changes nothing more. */
  lemma {:induction false} AfterInPlaceIdempotent(v: Json)
    ensures AfterInPlace(AfterInPlace(v)) == AfterInPlace(v)
  {
    match v
    case JArray(items) =>
      var once := AfterInPlace(v).items;
      forall i | 0 <= i < |items| ensures AfterInPlace(once[i]) == once[i] {
        AfterInPlaceIdempotent(items[i]);
      }
      assert AfterInPlace(AfterInPlace(v)).items == once;
    case JObject(_) =>
      SanitizedIdempotent(v);
    case _ =>
  }

  /**
   * `sanitizeObject(v)`: returns its result and, beside it, the argument as left behind
   * by the in-place rewriting of objects.
   */
  method SanitizeObject(v: Json) returns (result: Json, after: Json)
    ensures result == Sanitized(v)
    ensures after == AfterInPlace(v)
    decreases v, 1
  {
    match v
    case JString(s) =>
      result, after := JString(SanitizeString(s)), v;
    case JArray(items) =>
      var mapped, left := SanitizeArray(items);
      result, after := JArray(mapped), JArray(left);
    case JObject(props) =>
      var fields := SanitizeProperties(props);
      result, after := JObject(fields), JObject(fields);
    case _ =>
      result, after := v, v;
  }

  /**
   * The array branch, `obj.map(item => sanitizeObject(item))`: `mapped` is the new array,
   * `left` the old one's elements after the calls.
   */
  method SanitizeArray(items: seq<Json>) returns (mapped: seq<Json>, left: seq<Json>)
    ensures mapped == Sanitized(JArray(items)).items
    ensures left == AfterInPlace(JArray(items)).items
    decreases JArray(items), 0
  {
    ghost var cleaned := Sanitized(JArray(items)).items;
    ghost var kept := AfterInPlace(JArray(items)).items;
    ArrayItems(items);
    mapped, left := [], [];
    var i := 0;
    while i < |items|
      invariant 0 <= i <= |items|
      invariant mapped == cleaned[..i] && left == kept[..i]
    {
      var r, a := SanitizeObject(items[i]);
      PrefixStep(cleaned, i, r);
      PrefixStep(kept, i, a);
      mapped := mapped + [r];
      left := left + [a];
      i := i + 1;
    }
    assert cleaned[..i] == cleaned && kept[..i] == kept;
  }

  lemma PrefixStep<T>(s: seq<T>, i: nat, x: T)
    requires i < |s| && s[i] == x
    ensures s[..i + 1] == s[..i] + [x]
  {
  }

  /** Both walks of an array go element by element. */
  lemma ArrayItems(items: seq<Json>)
    ensures |Sanitized(JArray(items)).items| == |AfterInPlace(JArray(items)).items| == |items|
    ensures forall i :: 0 <= i < |items| ==> Sanitized(JArray(items)).items[i] == Sanitized(items[i])
    ensures forall i :: 0 <= i < |items| ==> AfterInPlace(JArray(items)).items[i] == AfterInPlace(items[i])
  {
  }

  /**
   * The object branch, `for (const key in obj) obj[key] = sanitizeObject(obj[key])`:
   * the property map is rewritten key by key, in whatever order the keys come.
   */
  method SanitizeProperties(props: map<string, Json>) returns (fields: map<string, Json>)
    ensures fields.Keys == props.Keys
    ensures forall k :: k in props ==> fields[k] == Sanitized(props[k])
    decreases JObject(props), 0
  {
    fields := props;
    var pending := props.Keys;
    while pending != {}
      invariant pending <= props.Keys && fields.Keys == props.Keys
      invariant forall k :: k in pending ==> fields[k] == props[k]
      invariant forall k :: k in props && k !in pending ==> fields[k] == Sanitized(props[k])
      decreases pending
    {
      var key :| key in pending;
      var r, _ := SanitizeObject(fields[key]);
      fields := fields[key := r];
      pending := pending - {key};
    }
  }

  /** The three request containers the middleware cleans. */
  class Request {
    var body: Json
    var query: Json
    var params: Json

    constructor (body: Json, query: Json, params: Json)
      ensures this.body == body && this.query == query && this.params == params
    {
      this.body := body;
      this.query := query;
      this.params := params;
    }

    /** `sanitizeInputMiddleware`: each truthy container is passed to sanitizeObject, whose result is dropped. */
    method SanitizeInputMiddleware()
      modifies this
      ensures body == AfterInPlace(old(body))
      ensures query == AfterInPlace(old(query))
      ensures params == AfterInPlace(old(params))
    {
      if Truthy(body) {
        var _, after := SanitizeObject(body);
        body := after;
      }
      if Truthy(query) {
        var _, after := SanitizeObject(query);
        query := after;
      }
      if Truthy(params) {
        var _, after := SanitizeObject(params);
        params := after;
      }
    }
  }
}
