/** The rule-based fallbacks of the language-model service (backend/externals/llm/service.py):
    keyword analysis of a free-text todo, and a fixed list of suggestions. The clock reading
    the analysis needs for a deadline is the parameter `now`. */
module LlmFallback {
  import opened Wrappers
  import opened Text

  const QueryWords: seq<string> := ["what", "when", "how", "show", "list"]
  const CriticalWords: seq<string> := ["urgent", "critical", "asap", "immediately"]
  const HighWords: seq<string> := ["important", "high", "soon"]
  const LowWords: seq<string> := ["low", "later", "someday"]

  /** The categories in the order they are tried, each with its keywords. */
  const CategoryKeywords: seq<(string, seq<string>)> := [
    ("work", ["work", "job", "office", "meeting"]),
    ("personal", ["personal", "home", "family"]),
    ("shopping", ["buy", "purchase", "shopping", "store"]),
    ("health", ["doctor", "health", "exercise", "gym"])
  ]

  /** One day in milliseconds. */
  const DayMs: int := 24 * 60 * 60 * 1000
  /** The longest title cut from a text that has no non-blank line. */
  const TitleMax: int := 100
  const FallbackConfidence: real := 0.5
  const FallbackRawResponse: string := "Fallback rule-based analysis"

  const FixedSuggestions: seq<string> := [
    "Consider breaking this into smaller tasks",
    "Set a deadline to stay on track",
    "Add relevant labels for better organization"
  ]

  datatype TodoSuggestion = TodoSuggestion(
    title: string,
    description: Option<string>,
    priority: string,
    category: Option<string>,
    labels: seq<string>,
    suggestedDeadline: Option<int>,
    suggestedProjectId: Option<int>,
    suggestedSubtasks: seq<string>,
    confidence: real)

  datatype AnalyzeTextResponse = AnalyzeTextResponse(
    suggestions: seq<TodoSuggestion>,
    detectedIntent: string,
    confidence: real,
    rawResponse: Option<string>)

  datatype GenerateSuggestionsResponse = GenerateSuggestionsResponse(suggestions: seq<string>, confidence: real)

  /** `any(word in s for word in words)`. */
  predicate ContainsAny(s: string, words: seq<string>) {
    exists k | 0 <= k < |words| :: Contains(s, words[k])
  }

  /** 'query' when the lowered text names one of the question words, 'create_todo' otherwise. */
  function IntentOf(text: string): (r: string)
    ensures r == "query" <==> ContainsAny(Lower(text), QueryWords)
    ensures r == "query" || r == "create_todo"
  {
    if ContainsAny(Lower(text), QueryWords) then "query" else "create_todo"
  }

  /** A non-empty string with no space at either end. */
  predicate Trimmed(s: string) {
    s != [] && !Space(s[0]) && !Space(s[|s| - 1])
  }

  /** `[p.strip() for p in pieces if p.strip()]`. Together with `NonBlankLinesAppend`, the
      one-piece case fixes the result: each piece in turn, dropped when blank, stripped
      otherwise. */
  function NonBlankLines(pieces: seq<string>): (r: seq<string>)
    ensures |r| <= |pieces|
    ensures forall k | 0 <= k < |r| :: Trimmed(r[k])
    ensures (forall j | 0 <= j < |pieces| :: Free(pieces[j], '\n')) ==> forall k | 0 <= k < |r| :: Free(r[k], '\n')
    ensures pieces != [] && !Blank(pieces[0]) ==> r != [] && r[0] == Strip(pieces[0])
    ensures |pieces| == 1 ==> r == if Blank(pieces[0]) then [] else [Strip(pieces[0])]
    ensures r == [] <==> forall j | 0 <= j < |pieces| :: Blank(pieces[j])
  {
    if pieces == [] then []
    else
      var rest := NonBlankLines(pieces[1..]);
      assert forall j | 1 <= j < |pieces| :: pieces[j] == pieces[1..][j - 1];
      if !Blank(pieces[0]) then
        assert Free(pieces[0], '\n') ==> Free(Strip(pieces[0]), '\n') by {
          if Free(pieces[0], '\n') {
            StripFree(pieces[0], '\n');
          }
        }
        [Strip(pieces[0])] + rest
      else rest
  }

  /** The first line is the first non-blank piece, stripped, wherever that piece is. */
  lemma {:induction false} FirstLineIsFirstNonBlank(pieces: seq<string>, i: nat)
    requires i < |pieces| && !Blank(pieces[i])
    requires forall j | 0 <= j < i :: Blank(pieces[j])
    ensures NonBlankLines(pieces) != [] && NonBlankLines(pieces)[0] == Strip(pieces[i])
    decreases i
  {
    if i > 0 {
      assert Blank(pieces[0]);
      assert forall j | 0 <= j < i - 1 :: pieces[1..][j] == pieces[j + 1];
      FirstLineIsFirstNonBlank(pieces[1..], i - 1);
    }
  }

  /** The lines of two runs of pieces are the lines of the first followed by those of the
      second. */
  lemma {:induction false} NonBlankLinesAppend(a: seq<string>, b: seq<string>)
    ensures NonBlankLines(a + b) == NonBlankLines(a) + NonBlankLines(b)
    decreases |a|
  {
    if a != [] {
      var ab := a + b;
      assert ab != [] && ab[0] == a[0] && ab[1..] == a[1..] + b;
      NonBlankLinesAppend(a[1..], b);
      if Blank(a[0]) {
        assert NonBlankLines(ab) == NonBlankLines(ab[1..]);
        assert NonBlankLines(a) == NonBlankLines(a[1..]);
      } else {
        var x := [Strip(a[0])];
        assert NonBlankLines(ab) == x + NonBlankLines(ab[1..]);
        assert NonBlankLines(a) == x + NonBlankLines(a[1..]);
        assert x + (NonBlankLines(a[1..]) + NonBlankLines(b)) == (x + NonBlankLines(a[1..])) + NonBlankLines(b);
      }
    } else {
      assert a + b == b;
    }
  }

  /** The non-blank lines of a text, stripped. */
  function LinesOf(text: string): (r: seq<string>)
    ensures forall k | 0 <= k < |r| :: Trimmed(r[k]) && Free(r[k], '\n')
  {
    var pieces := Split(text, '\n');
    assert forall j | 0 <= j < |pieces| :: Free(pieces[j], '\n');
    NonBlankLines(pieces)
  }

  /** The first line, or the first 100 characters when there is none. */
  function TitleOf(text: string): (r: string)
    ensures LinesOf(text) != [] ==> r == LinesOf(text)[0] && Trimmed(r) && Free(r, '\n')
    ensures LinesOf(text) == [] ==> r <= text && |r| == (if |text| < TitleMax then |text| else TitleMax)
  {
    var lines := LinesOf(text);
    if lines != [] then lines[0] else text[..if |text| < TitleMax then |text| else TitleMax]
  }

  /** The later lines joined by newlines, or None when there is at most one line. */
  function DescriptionOf(text: string): (r: Option<string>)
    ensures r.None? <==> |LinesOf(text)| <= 1
    ensures r.Some? ==> Split(r.value, '\n') == LinesOf(text)[1..]
  {
    var lines := LinesOf(text);
    if |lines| > 1 then
      assert forall k | 0 <= k < |lines[1..]| :: lines[1..][k] == lines[k + 1];
      SplitJoin(lines[1..], '\n');
      Some(Join(lines[1..], "\n"))
    else None
  }

  /** The keyword priority: Critical before High before Low, Medium when none matches. */
  function PriorityOf(lowered: string): (r: string)
    ensures ContainsAny(lowered, CriticalWords) ==> r == "Critical"
    ensures !ContainsAny(lowered, CriticalWords) && ContainsAny(lowered, HighWords) ==> r == "High"
    ensures !ContainsAny(lowered, CriticalWords) && !ContainsAny(lowered, HighWords) && ContainsAny(lowered, LowWords) ==> r == "Low"
    ensures r == "Medium" <==> !ContainsAny(lowered, CriticalWords) && !ContainsAny(lowered, HighWords) && !ContainsAny(lowered, LowWords)
  {
    if ContainsAny(lowered, CriticalWords) then "Critical"
    else if ContainsAny(lowered, HighWords) then "High"
    else if ContainsAny(lowered, LowWords) then "Low"
    else "Medium"
  }

  /** The suggested deadline: now for 'today' or 'now', a day later for 'tomorrow'. */
  function DeadlineOf(lowered: string, now: int): (r: Option<int>)
    ensures Contains(lowered, "today") || Contains(lowered, "now") ==> r == Some(now)
    ensures !(Contains(lowered, "today") || Contains(lowered, "now")) && Contains(lowered, "tomorrow") ==> r == Some(now + DayMs)
    ensures r.None? <==> !Contains(lowered, "today") && !Contains(lowered, "now") && !Contains(lowered, "tomorrow")
  {
    if Contains(lowered, "today") || Contains(lowered, "now") then Some(now)
    else if Contains(lowered, "tomorrow") then Some(now + DayMs)
    else None
  }

  /** The loop over the categories: the first one with a keyword in the text. */
  function FirstCategory(lowered: string, cats: seq<(string, seq<string>)>): (r: Option<string>)
    ensures r.None? <==> forall k | 0 <= k < |cats| :: !ContainsAny(lowered, cats[k].1)
    ensures r.Some? ==> exists k | 0 <= k < |cats| ::
      && cats[k].0 == r.value && ContainsAny(lowered, cats[k].1)
      && forall j | 0 <= j < k :: !ContainsAny(lowered, cats[j].1)
  {
    if cats == [] then None
    else if ContainsAny(lowered, cats[0].1) then Some(cats[0].0)
    else
      var rest := FirstCategory(lowered, cats[1..]);
      assert forall k | 1 <= k < |cats| :: cats[k] == cats[1..][k - 1];
      if rest.Some? then
        assert exists k | 0 <= k < |cats| ::
          && cats[k].0 == rest.value && ContainsAny(lowered, cats[k].1)
          && forall j | 0 <= j < k :: !ContainsAny(lowered, cats[j].1) by {
          var k :| 0 <= k < |cats[1..]| && cats[1..][k].0 == rest.value && ContainsAny(lowered, cats[1..][k].1)
                   && forall j | 0 <= j < k :: !ContainsAny(lowered, cats[1..][j].1);
          assert forall j | 1 <= j < k + 1 :: cats[j] == cats[1..][j - 1];
          assert cats[k + 1] == cats[1..][k];
        }
        rest
      else rest
  }

  /** `_fallback_analyze_text`: one suggestion built from the stripped text, with confidence
      0.5, no labels, no subtasks and no project; the detected intent; and the fixed raw
      response. */
  function AnalyzeText(requestText: string, now: int): (r: AnalyzeTextResponse)
    ensures |r.suggestions| == 1
    ensures var s := r.suggestions[0];
            && s.confidence == FallbackConfidence && s.labels == [] && s.suggestedSubtasks == []
            && s.suggestedProjectId.None?
            && s.priority == PriorityOf(Lower(Strip(requestText)))
            && s.category == FirstCategory(Lower(Strip(requestText)), CategoryKeywords)
            && s.suggestedDeadline == DeadlineOf(Lower(Strip(requestText)), now)
    ensures r.detectedIntent == IntentOf(Strip(requestText))
    ensures r.confidence == FallbackConfidence && r.rawResponse == Some(FallbackRawResponse)
  {
    var text := Strip(requestText);
    var lowered := Lower(text);
    var suggestion := TodoSuggestion(TitleOf(text), DescriptionOf(text), PriorityOf(lowered),
                                     FirstCategory(lowered, CategoryKeywords), [], DeadlineOf(lowered, now),
                                     None, [], FallbackConfidence);
    AnalyzeTextResponse([suggestion], IntentOf(text), FallbackConfidence, Some(FallbackRawResponse))
  }

  /** The title of the analysis is empty exactly when the text is blank; otherwise it is the
      first non-blank line, stripped: no newline in it and no space at either end. */
  lemma {:induction false} TitleIsFirstLine(requestText: string, now: int)
    ensures var title := AnalyzeText(requestText, now).suggestions[0].title;
            && (title == [] <==> Blank(requestText))
            && (title != [] ==> Trimmed(title))
            && (title != [] ==> title == Strip(Split(Strip(requestText), '\n')[0]))
            && Free(title, '\n')
  {
    var text := Strip(requestText);
    var pieces := Split(text, '\n');
    var lines := LinesOf(text);
    if text == [] {
      assert FirstIndex(text, '\n').None?;
      assert pieces == [[]];
      assert lines == [];
    } else {
      assert !Space(text[0]);
      var first := FirstIndex(text, '\n');
      assert pieces[0][0] == text[0] by {
        if first.Some? {
          assert first.value != 0;
        }
      }
      assert !Blank(pieces[0]);
      assert Free(lines[0], '\n');
    }
  }

  /** Splitting the description at newlines gives back the lines after the title. */
  lemma DescriptionSplitsBack(requestText: string, now: int)
    ensures var text := Strip(requestText);
            var d := AnalyzeText(requestText, now).suggestions[0].description;
            && (d.None? <==> |LinesOf(text)| <= 1)
            && (d.Some? ==> Split(d.value, '\n') == LinesOf(text)[1..])
  {
    var text := Strip(requestText);
    var lines := LinesOf(text);
    if |lines| > 1 {
      assert forall k | 0 <= k < |lines[1..]| :: lines[1..][k] == lines[k + 1];
      SplitJoin(lines[1..], '\n');
    }
  }

  /** Python's `xs[:n]`: a negative `n` counts from the end. */
  function PrefixUpTo<T>(xs: seq<T>, n: int): (r: seq<T>)
    ensures n >= 0 ==> r == xs[..if n < |xs| then n else |xs|]
    ensures n < 0 ==> r == xs[..if |xs| + n > 0 then |xs| + n else 0]
  {
    if n >= 0 then xs[..if n < |xs| then n else |xs|]
    else xs[..if |xs| + n > 0 then |xs| + n else 0]
  }

  /** `_fallback_generate_suggestions`: the first `max_suggestions` of three fixed hints,
      with confidence 0.5. */
  function GenerateSuggestions(maxSuggestions: int): (r: GenerateSuggestionsResponse)
    ensures maxSuggestions >= 0 ==> |r.suggestions| == if maxSuggestions < 3 then maxSuggestions else 3
    ensures maxSuggestions < 0 ==> |r.suggestions| == if maxSuggestions > -3 then 3 + maxSuggestions else 0
    ensures forall k | 0 <= k < |r.suggestions| :: r.suggestions[k] == FixedSuggestions[k]
    ensures r.confidence == FallbackConfidence
  {
    GenerateSuggestionsResponse(PrefixUpTo(FixedSuggestions, maxSuggestions), FallbackConfidence)
  }
}
