/** The home page's recorder demo: the text it shows as the spoken command, taken from the
    prompt it is given or, without one, from a fixed table of example commands per web page. */
module RecorderDemo {
  import opened Wrappers

  /** The characters stripped from the ends of a prompt. */
  predicate IsQuote(c: char) {
    c == '"' || c == '\''
  }

  /** The prompt with one quote character removed from its start and one from its end, each
      only if present. A lone quote is removed once. */
  function StripQuotes(p: string): (r: string)
    ensures |r| <= |p| <= |r| + 2
    ensures r == p || (|p| >= 1 && (r == p[1..] || r == p[..|p| - 1]))
            || (|p| >= 2 && r == p[1..|p| - 1])
  {
    var start := if |p| > 0 && IsQuote(p[0]) then 1 else 0;
    var end := if |p| > start && IsQuote(p[|p| - 1]) then |p| - 1 else |p|;
    p[start..end]
  }

  /** A prompt that neither starts nor ends with a quote is shown unchanged. */
  lemma UnquotedUnchanged(p: string)
    requires |p| == 0 || (!IsQuote(p[0]) && !IsQuote(p[|p| - 1]))
    ensures StripQuotes(p) == p
  {
  }

  /** Quoting any text with one quote character on each side and stripping gives the text back,
      whatever quotes the text holds inside. */
  lemma QuotedRoundTrip(s: string, open: char, close: char)
    requires IsQuote(open) && IsQuote(close)
    ensures StripQuotes([open] + s + [close]) == s
  {
    var p := [open] + s + [close];
    assert p[|p| - 1] == close;
    assert p[1..|p| - 1] == s;
  }

  /** Only one quote is stripped from each end: a text wrapped in two quotes on each side keeps
      one on each side. */
  lemma OneQuotePerEnd(s: string, q: char)
    requires IsQuote(q)
    ensures StripQuotes([q, q] + s + [q, q]) == [q] + s + [q]
  {
    var p := [q, q] + s + [q, q];
    assert p[|p| - 1] == q;
    assert p[1..|p| - 1] == [q] + s + [q];
  }

  /** The example command shown for unknown pages. */
  const DefaultText := "Write a function to calculate the fibonacci sequence"

  /** The example command for each known page; the key 'default' names the fallback itself. */
  const Transcriptions: map<string, string> := map[
    "vscode" := DefaultText,
    "youtube" := "Create a cheat sheet for this JavaScript tutorial and save it to Notion",
    "docs" := "Propose a few ideas on how to make this blog post more practical and make the edits",
    "notion" := "I need some research on how AI affects reader engagement in literature, write the next few paragraphs",
    "linkedin" := "Find the three most qualified DevOps engineers and draft personalized outreach messages",
    "gmail" := "Draft an email to the marketing team about Q3 campaign results using my usual style",
    "chatgpt" := "Which AI model would work best for this coding task? Switch to Claude if needed",
    "n8n" := "Add error handling and retry logic to this API call function",
    "default" := DefaultText
  ]

  /** The command text for a page: a non-empty prompt, stripped of its end quotes, wins;
      otherwise the page's entry in the table, or the default text for a page the table does
      not know. */
  function GetTranscriptionText(webpage: string, prompt: Option<string>): (r: string)
    ensures prompt.Some? && prompt.value != [] ==> r == StripQuotes(prompt.value)
    ensures (prompt.None? || prompt.value == []) && webpage in Transcriptions ==>
              r == Transcriptions[webpage]
    ensures (prompt.None? || prompt.value == []) && webpage !in Transcriptions ==>
              r == DefaultText
    ensures prompt.None? || prompt.value == [] ==> r in Transcriptions.Values
  {
    if prompt.Some? && prompt.value != [] then StripQuotes(prompt.value)
    else if webpage in Transcriptions then Transcriptions[webpage]
    else
      assert Transcriptions["default"] == DefaultText;
      DefaultText
  }

  /** Without a prompt the demo always shows a non-empty command, for every page name. */
  lemma FallbackNeverEmpty(webpage: string)
    ensures GetTranscriptionText(webpage, None) != []
  {
  }
}
