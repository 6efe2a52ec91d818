/**
 * Answer composition (rag_pipeline/rag_chain.py): the question rewrite, the system
 * prompt assembled from the retrieved chunks, and `answer`, which searches the vector
 * store, asks the language model and, when the model call fails, falls back to a
 * fixed apology followed by an excerpt of every retrieved chunk.
 *
 * The language-model client is outside the model: its `generate` is the function
 * `llm`, which for a message list and a token budget either produces a text or fails
 * (the exception `answer` catches).
 */
module RagChain {
  import opened Wrappers
  import opened Text
  import opened Ingestion
  import opened Retrieval
  import Config

  /** One chat message as the model client takes it: a role and a content. */
  datatype Message = Message(role: string, content: string)

  /** What one call of the model client does: returns a text, or raises. */
  datatype LlmReply = Generated(text: string) | Failed

  /** The `max_tokens` budget of every model call. */
  const MaxTokens: int := 512

  const NoKnowledgeBase: string :=
    "No knowledge base is indexed yet. Please upload and index business documents first."

  const Apology: string :=
    "There was an error contacting the language model. "
    + "Here are the most relevant passages from your docs instead:\n\n"

  // ----- the question rewrite -----

  /**
   * `_rewrite_question`: the question without its surrounding whitespace; the history
   * is not consulted. The result is empty exactly for a blank question.
   */
  function RewriteQuestion(question: string, history: seq<Message>): (r: string)
    ensures |r| <= |question| && IsStripped(r)
    ensures r == [] <==> AllSpace(question)
  {
    Strip(question)
  }

  /** Rewriting a rewritten question changes nothing. */
  lemma {:induction false} RewriteIdempotent(question: string, history: seq<Message>)
    ensures RewriteQuestion(RewriteQuestion(question, history), history) == RewriteQuestion(question, history)
  {
    StripIdempotent(question);
  }

  // ----- source labels -----

  /** `, page p` when the page is truthy (present and not 0), nothing otherwise. */
  function PageLabel(page: Option<int>): (r: string)
    ensures r == [] <==> page.None? || page.value == 0
  {
    if page.Some? && page.value != 0 then ", page " + IntToString(page.value) else ""
  }

  /** The label of a chunk: its source, followed by its page when the page is truthy. */
  function SourceLabel(m: ChunkMetadata): (l: string)
    ensures |l| >= |m.source| && l[..|m.source|] == m.source
    ensures l == m.source <==> m.page.None? || m.page.value == 0
  {
    m.source + PageLabel(m.page)
  }

  // ----- the system prompt -----

  /** The block `[id] (label)\ncontent` that stands for one retrieved chunk in the prompt. */
  function ContextBlock(m: ChunkMetadata): string {
    "[" + m.id + "] (" + SourceLabel(m) + ")\n" + m.content
  }

  /** A block carries the chunk's id right after its opening bracket and ends with its content. */
  lemma {:induction false} BlockHasIdAndContent(m: ChunkMetadata)
    ensures OccursAt(ContextBlock(m), m.id, 1)
    ensures OccursAt(ContextBlock(m), m.content, |ContextBlock(m)| - |m.content|)
  {
    var head := "[" + m.id + "] (" + SourceLabel(m) + ")\n";
    assert ContextBlock(m) == head + m.content;
    assert head[1..1 + |m.id|] == m.id;
  }

  /** A text that carries a chunk's block carries its id and its content. */
  lemma {:induction false} BlockInText(s: string, m: ChunkMetadata, j: int)
    requires OccursAt(s, ContextBlock(m), j)
    ensures OccursAt(s, m.id, j + 1)
    ensures OccursAt(s, m.content, j + |ContextBlock(m)| - |m.content|)
  {
    BlockHasIdAndContent(m);
    ContainsTransitive(s, ContextBlock(m), m.id, j, 1);
    ContainsTransitive(s, ContextBlock(m), m.content, j, |ContextBlock(m)| - |m.content|);
  }

  /** The blocks of the retrieved chunks, one per chunk, in retrieval order. */
  function ContextLines(retrieved: seq<RetrievedChunk>): (lines: seq<string>)
    ensures |lines| == |retrieved|
  {
    seq(|retrieved|, k requires 0 <= k < |retrieved| => ContextBlock(retrieved[k].metadata))
  }

  /** The set of sources the retrieved chunks come from. */
  function SourceSet(retrieved: seq<RetrievedChunk>): set<string> {
    set rc | rc in retrieved :: rc.metadata.source
  }

  /** The sources of the retrieved chunks, each once, in order of first occurrence. */
  function DistinctSources(retrieved: seq<RetrievedChunk>): (ss: seq<string>)
    ensures |ss| <= |retrieved|
  {
    if retrieved == [] then []
    else
      var prev := DistinctSources(retrieved[..|retrieved| - 1]);
      var s := retrieved[|retrieved| - 1].metadata.source;
      if s in prev then prev else prev + [s]
  }

  /** The listed sources are pairwise different and are exactly the set of sources retrieved. */
  lemma {:induction false} DistinctSourcesSpec(retrieved: seq<RetrievedChunk>)
    ensures var ss := DistinctSources(retrieved);
      && (forall i, j | 0 <= i < j < |ss| :: ss[i] != ss[j])
      && (set s | s in ss) == SourceSet(retrieved)
  {
    if retrieved != [] {
      var init := retrieved[..|retrieved| - 1];
      DistinctSourcesSpec(init);
      assert retrieved == init + [retrieved[|retrieved| - 1]];
      assert SourceSet(retrieved) == SourceSet(init) + {retrieved[|retrieved| - 1].metadata.source};
    }
  }

  const PromptIntro: string :=
    "You are an AI sales & support assistant for a small business.\n"
    + "Answer the user's question using ONLY the information from the provided context.\n"
    + "If an answer is not covered in the context, say you are not sure and suggest contacting the business.\n"
    + "Always be concise, friendly, and conversion\U{2011}oriented.\n\n"
    + "User question (rewritten): "

  const PromptRules: string :=
    "When you respond:\n"
    + "- Cite up to 2\U{2013}3 sources in natural language, for example: "
    + "\"According to Pricing.pdf, page 2, ...\".\n"
    + "- If the question is about prices, booking, or packages, gently guide the user towards sharing their contact details "
    + "so the business can follow up.\n"

  /**
   * The layout of the prompt around its variable parts: the fixed introduction ending in
   * the question label, the question, the sources line, the context blocks and the
   * fixed response rules.
   */
  function Layout(intro: string, question: string, sources: string, context: string, rules: string): string {
    intro + question + "\n\n" + "Context from the business documents (sources: " + sources + "):\n"
    + context + "\n\n" + rules
  }

  /** In the layout, the question follows the introduction and the context follows everything up to the sources line. */
  lemma {:induction false} LayoutParts(intro: string, question: string, sources: string, context: string, rules: string)
    ensures var s := Layout(intro, question, sources, context, rules);
      var before := intro + question + "\n\n" + "Context from the business documents (sources: " + sources + "):\n";
      && OccursAt(s, question, |intro|)
      && OccursAt(s, context, |before|)
  {
    var s := Layout(intro, question, sources, context, rules);
    var before := intro + question + "\n\n" + "Context from the business documents (sources: " + sources + "):\n";
    assert s == before + context + ("\n\n" + rules);
    assert s[|before|..|before| + |context|] == context;
    assert s[|intro|..|intro| + |question|] == question;
  }

  /** Every part of the context occurs in the layout. */
  lemma {:induction false} LayoutHasPart(intro: string, question: string, sources: string, parts: seq<string>, rules: string, k: int)
    requires 0 <= k < |parts|
    ensures exists j :: OccursAt(Layout(intro, question, sources, Join(parts, "\n\n"), rules), parts[k], j)
  {
    var context := Join(parts, "\n\n");
    var s := Layout(intro, question, sources, context, rules);
    LayoutParts(intro, question, sources, context, rules);
    var off :| OccursAt(s, context, off);
    JoinHasPart(parts, "\n\n", k);
    var j :| OccursAt(context, parts[k], j);
    ContainsTransitive(s, context, parts[k], off, j);
  }

  // ----- the fallback answer -----

  /** `content[:250]`: at most 250 characters, a prefix of the content, the whole content when it is short. */
  function Snippet(content: string): (s: string)
    ensures |s| <= 250 && |s| <= |content| && s == content[..|s|]
    ensures |content| <= 250 ==> s == content
    ensures |content| >= 250 ==> |s| == 250
  {
    content[..Min(250, |content|)]
  }

  /** The fallback line `- label: excerpt...` of one chunk. */
  function FallbackLine(m: ChunkMetadata): string {
    "- " + SourceLabel(m) + ": " + Snippet(m.content) + "...\n"
  }

  /** What the failure branch of `answer` appends after the apology, chunk by chunk. */
  function Excerpts(retrieved: seq<RetrievedChunk>): string {
    if retrieved == [] then ""
    else Excerpts(retrieved[..|retrieved| - 1]) + FallbackLine(retrieved[|retrieved| - 1].metadata)
  }

  /** Appending the pieces of one fallback line to a text appends the line. */
  lemma {:induction false} ExtendWithLine(before: string, m: ChunkMetadata, mid: string)
    requires mid == before + "- " + m.source + PageLabel(m.page)
      || (PageLabel(m.page) == [] && mid == before + "- " + m.source)
    ensures mid + ": " + m.content[..Min(250, |m.content|)] + "...\n" == before + FallbackLine(m)
  {
    var d, src, p, c, e := "- ", m.source, PageLabel(m.page), ": ", "...\n";
    var n := m.content[..Min(250, |m.content|)];
    var x := d + SourceLabel(m);
    assert mid == before + x by {
      if p == [] {
        assert before + d + src + p == before + d + src;
        assert src + p == src;
        AppendAssoc(before, d, src);
      } else {
        AppendAssoc(before + d, src, p);
        AppendAssoc(before, d, src + p);
      }
    }
    AppendAssoc(before, x, c);
    AppendAssoc(before, x + c, n);
    AppendAssoc(before, (x + c) + n, e);
    assert FallbackLine(m) == ((x + c) + n) + e;
  }

  /** One more chunk adds its fallback line to the excerpts. */
  lemma {:induction false} ExcerptsStep(retrieved: seq<RetrievedChunk>, i: int, prefix: string, before: string, after: string)
    requires 0 <= i < |retrieved|
    requires before == prefix + Excerpts(retrieved[..i])
    requires after == before + FallbackLine(retrieved[i].metadata)
    ensures after == prefix + Excerpts(retrieved[..i + 1])
  {
    var r := retrieved[..i + 1];
    var e, l := Excerpts(retrieved[..i]), FallbackLine(retrieved[i].metadata);
    assert Excerpts(r) == e + l by {
      assert r[..|r| - 1] == retrieved[..i];
      assert r[|r| - 1] == retrieved[i];
    }
    AppendAssoc(prefix, e, l);
  }

  /** The concatenation of a list of strings. */
  function Concat(parts: seq<string>): string {
    if parts == [] then "" else Concat(parts[..|parts| - 1]) + parts[|parts| - 1]
  }

  /** The fallback lines of the retrieved chunks, one per chunk, in order. */
  function FallbackLines(retrieved: seq<RetrievedChunk>): (lines: seq<string>)
    ensures |lines| == |retrieved|
  {
    seq(|retrieved|, k requires 0 <= k < |retrieved| => FallbackLine(retrieved[k].metadata))
  }

  /** The excerpts are exactly the fallback line of each chunk, in retrieval order. */
  lemma {:induction false} ExcerptsAreLines(retrieved: seq<RetrievedChunk>)
    ensures Excerpts(retrieved) == Concat(FallbackLines(retrieved))
  {
    if retrieved != [] {
      var init := retrieved[..|retrieved| - 1];
      ExcerptsAreLines(init);
      var lines := FallbackLines(retrieved);
      assert lines[..|lines| - 1] == FallbackLines(init);
    }
  }

  /**
   * Each fallback line is "- ", the chunk's label, ": ", a prefix of at most 250
   * characters of its content, then "...\n".
   */
  lemma {:induction false} FallbackLineShape(m: ChunkMetadata)
    ensures var line := FallbackLine(m); var n := |SourceLabel(m)|;
      && 2 + n + 2 + 4 <= |line| <= 2 + n + 2 + 250 + 4
      && line[..2 + n + 2] == "- " + SourceLabel(m) + ": "
      && line[|line| - 4..] == "...\n"
      && |line| - 8 - n <= 250 && |line| - 8 - n <= |m.content|
      && line[2 + n + 2..|line| - 4] == m.content[..|line| - 8 - n]
  {
    var line := FallbackLine(m);
    assert line == ("- " + SourceLabel(m) + ": ") + (Snippet(m.content) + "...\n");
  }

  /**
   * `RAGChain`: answers a question from the vector store and the language model. The
   * fixed texts of the answer are held by the object, so that what is proved about the
   * prompt and the fallback holds whatever their wording.
   */
  class RagChain {
    /** The model client's `generate`. */
    const llm: (seq<Message>, int) -> LlmReply
    const vs: VectorStore
    const intro: string
    const rules: string
    const apology: string
    const noIndex: string

    constructor (llm: (seq<Message>, int) -> LlmReply, vectorStore: VectorStore)
      ensures this.llm == llm && vs == vectorStore
      ensures intro == PromptIntro && rules == PromptRules && apology == Apology && noIndex == NoKnowledgeBase
    {
      this.llm := llm;
      vs := vectorStore;
      intro := PromptIntro;
      rules := PromptRules;
      apology := Apology;
      noIndex := NoKnowledgeBase;
    }

    /** The system prompt `_build_system_prompt` returns. */
    function SystemPrompt(rewritten: string, retrieved: seq<RetrievedChunk>): string {
      Layout(intro, rewritten, Join(DistinctSources(retrieved), ", "), Join(ContextLines(retrieved), "\n\n"), rules)
    }

    /** The two messages sent to the model: the system prompt, then the question as the user typed it. */
    function Messages(question: string, history: seq<Message>, retrieved: seq<RetrievedChunk>): (ms: seq<Message>)
      ensures |ms| == 2 && ms[0].role == "system" && ms[1] == Message("user", question)
    {
      [Message("system", SystemPrompt(RewriteQuestion(question, history), retrieved)), Message("user", question)]
    }

    /** The answer text once chunks are retrieved: the model's text verbatim, or the apology and the excerpts when the call fails. */
    function Reply(question: string, history: seq<Message>, retrieved: seq<RetrievedChunk>): string {
      match llm(Messages(question, history, retrieved), MaxTokens)
      case Generated(text) => text
      case Failed => apology + Excerpts(retrieved)
    }

    /** `_build_system_prompt`, block by block. */
    method BuildSystemPrompt(rewritten: string, retrieved: seq<RetrievedChunk>) returns (prompt: string)
      ensures prompt == SystemPrompt(rewritten, retrieved)
    {
      var lines: seq<string> := [];
      for i := 0 to |retrieved|
        invariant |lines| == i
        invariant forall k | 0 <= k < i :: lines[k] == ContextBlock(retrieved[k].metadata)
      {
        var meta := retrieved[i].metadata;
        var tag := meta.source;
        if meta.page.Some? && meta.page.value != 0 {
          AppendAssoc(tag, ", page ", IntToString(meta.page.value));
          tag := tag + ", page " + IntToString(meta.page.value);
        } else {
          assert tag + "" == tag;
        }
        assert tag == SourceLabel(meta);
        var block := "[" + meta.id + "] (" + tag + ")\n" + meta.content;
        assert block == ContextBlock(meta);
        lines := lines + [block];
      }
      assert lines == ContextLines(retrieved);
      var contextText := Join(lines, "\n\n");
      var sourcesList := Join(DistinctSources(retrieved), ", ");
      prompt := Layout(intro, rewritten, sourcesList, contextText, rules);
    }

    /**
     * `answer`: the fixed message and nothing else when the store is not ready;
     * otherwise the chunks found for the rewritten question, their ids in the same
     * order, and the reply to the system prompt and the original question.
     */
    method Answer(question: string, history: seq<Message>) returns (answer: string, retrieved: seq<RetrievedChunk>, ids: seq<string>)
      ensures !vs.IsReady() ==> answer == noIndex && retrieved == [] && ids == []
      ensures vs.IsReady() ==> retrieved == vs.SearchResult(RewriteQuestion(question, history), None)
      ensures vs.IsReady() ==> answer == Reply(question, history, retrieved)
      ensures |ids| == |retrieved| && forall k | 0 <= k < |ids| :: ids[k] == retrieved[k].metadata.id
    {
      if !vs.IsReady() {
        return noIndex, [], [];
      }
      var rewritten := RewriteQuestion(question, history);
      retrieved := vs.Search(rewritten, None);
      ids := seq(|retrieved|, k requires 0 <= k < |retrieved| => retrieved[k].metadata.id);
      var systemPrompt := BuildSystemPrompt(rewritten, retrieved);
      var messages := [Message("system", systemPrompt), Message("user", question)];
      var reply := llm(messages, MaxTokens);
      if reply.Generated? {
        answer := reply.text;
      } else {
        answer := Fallback(retrieved);
      }
    }

    /** The failure branch of `answer`: the apology, then one line per chunk, appended piece by piece. */
    method Fallback(retrieved: seq<RetrievedChunk>) returns (answer: string)
      ensures answer == apology + Excerpts(retrieved)
    {
      answer := apology;
      for i := 0 to |retrieved|
        invariant answer == apology + Excerpts(retrieved[..i])
      {
        var meta := retrieved[i].metadata;
        ghost var before := answer;
        answer := answer + "- " + meta.source;
        if meta.page.Some? && meta.page.value != 0 {
          ghost var mid := answer;
          answer := answer + ", page " + IntToString(meta.page.value);
          AppendAssoc(mid, ", page ", IntToString(meta.page.value));
          assert answer == mid + PageLabel(meta.page);
        } else {
          assert PageLabel(meta.page) == [];
        }
        ExtendWithLine(before, meta, answer);
        answer := answer + ": " + meta.content[..Min(250, |meta.content|)] + "...\n";
        ExcerptsStep(retrieved, i, apology, before, answer);
      }
      assert retrieved[..|retrieved|] == retrieved;
    }
  }

  /** The prompt carries the rewritten question right after the fixed introduction. */
  lemma {:induction false} PromptHasQuestion(chain: RagChain, rewritten: string, retrieved: seq<RetrievedChunk>)
    ensures OccursAt(chain.SystemPrompt(rewritten, retrieved), rewritten, |chain.intro|)
  {
    LayoutParts(chain.intro, rewritten, Join(DistinctSources(retrieved), ", "), Join(ContextLines(retrieved), "\n\n"), chain.rules);
  }

  /**
   * The prompt carries the block of every retrieved chunk, hence its id and its full
   * content.
   */
  lemma {:induction false} PromptHasChunk(chain: RagChain, rewritten: string, retrieved: seq<RetrievedChunk>, k: int)
    requires 0 <= k < |retrieved|
    ensures exists j :: OccursAt(chain.SystemPrompt(rewritten, retrieved), ContextBlock(retrieved[k].metadata), j)
    ensures exists j :: OccursAt(chain.SystemPrompt(rewritten, retrieved), retrieved[k].metadata.id, j)
    ensures exists j :: OccursAt(chain.SystemPrompt(rewritten, retrieved), retrieved[k].metadata.content, j)
  {
    var m := retrieved[k].metadata;
    var block := ContextBlock(m);
    var prompt := chain.SystemPrompt(rewritten, retrieved);
    LayoutHasPart(chain.intro, rewritten, Join(DistinctSources(retrieved), ", "), ContextLines(retrieved), chain.rules, k);
    var j :| OccursAt(prompt, block, j);
    BlockInText(prompt, m, j);
  }

  /** With an honest search and the default settings, an answer draws on at most five chunks, each scored at most 1. */
  lemma {:induction false} AnswerBounded(chain: RagChain, question: string, history: seq<Message>)
    requires HonestKnn(chain.vs.knn) && chain.vs.cfg == Config.Default
    ensures |chain.vs.SearchResult(RewriteQuestion(question, history), None)| <= Config.TopK
    ensures forall r | r in chain.vs.SearchResult(RewriteQuestion(question, history), None) :: r.score <= 1.0
  {
    SearchBounded(chain.vs, RewriteQuestion(question, history), None);
  }

  /** When the model call fails, the answer is the apology followed by one fallback line per retrieved chunk, in order. */
  lemma {:induction false} FailedReply(chain: RagChain, question: string, history: seq<Message>, retrieved: seq<RetrievedChunk>)
    requires chain.llm(chain.Messages(question, history, retrieved), MaxTokens) == Failed
    ensures chain.Reply(question, history, retrieved) == chain.apology + Concat(FallbackLines(retrieved))
  {
    ExcerptsAreLines(retrieved);
  }

  /** When the model call succeeds, the answer is its text, unchanged. */
  lemma {:induction false} GeneratedReply(chain: RagChain, question: string, history: seq<Message>, retrieved: seq<RetrievedChunk>, text: string)
    requires chain.llm(chain.Messages(question, history, retrieved), MaxTokens) == Generated(text)
    ensures chain.Reply(question, history, retrieved) == text
  {
  }
}
