/**
 * `getSummarization` (src/services/file.ts): retrieves the two records of a
 * file that are most similar to the query, fills them into a fixed system
 * prompt, pairs that with a fixed user message, and returns what the model
 * says, unparsed.
 *
 * The chain is invoked with the format string, and both branches of its
 * first step receive it: the retriever uses it as the similarity query, and
 * the pass-through hands it on as the user message. The similarity score, the
 * formatting of documents into text and the model are parameters: they are
 * library or network calls whose internals are not part of this model.
 */
module Summarization {
  import opened Wrappers
  import opened FileService

  // ---------------------------------------------------------------------------
  // The retriever
  // ---------------------------------------------------------------------------

  /** How many records the retriever returns. */
  const K: nat := 2

  /** The records of one file, in table order (the `file_id eq fileId` filter). */
  function FilterByFile(records: seq<Doc>, fileId: int): (r: seq<Doc>)
    ensures forall d :: d in r <==> d in records && TaggedWith(d, fileId)
    ensures |r| == CountTagged(records, fileId)
  {
    if records == [] then []
    else if TaggedWith(records[0], fileId) then [records[0]] + FilterByFile(records[1..], fileId)
    else FilterByFile(records[1..], fileId)
  }

  /** The position of the first best-scoring candidate. */
  function BestIndex(candidates: seq<Doc>, score: Doc -> int): (b: nat)
    requires candidates != []
    ensures b < |candidates|
    ensures forall i :: 0 <= i < |candidates| ==> score(candidates[i]) <= score(candidates[b])
  {
    if |candidates| == 1 then 0
    else
      var b := BestIndex(candidates[1..], score);
      if score(candidates[0]) >= score(candidates[1 + b]) then 0 else 1 + b
  }

  /** Best first: no record scores above the one before it. */
  predicate Descending(r: seq<Doc>, score: Doc -> int) {
    forall i, j :: 0 <= i < j < |r| ==> score(r[i]) >= score(r[j])
  }

  /** No candidate left out of `taken` scores above any record in it. */
  predicate NoneSkippedAbove(candidates: seq<Doc>, taken: seq<Doc>, score: Doc -> int) {
    forall x, y :: x in multiset(candidates) - multiset(taken) && y in taken ==> score(x) <= score(y)
  }

  /**
   * The `k` best-scoring candidates, best first: as many as there are, up to
   * `k`, drawn from the candidates, and none of the candidates left out
   * scores above any of those taken.
   */
  function TopK(candidates: seq<Doc>, k: nat, score: Doc -> int): (r: seq<Doc>)
    ensures |r| == if k < |candidates| then k else |candidates|
    ensures multiset(r) <= multiset(candidates)
    ensures Descending(r, score)
    ensures NoneSkippedAbove(candidates, r, score)
    decreases k
  {
    if k == 0 || candidates == [] then []
    else
      var b := BestIndex(candidates, score);
      var rest := candidates[..b] + candidates[b + 1..];
      var tail := TopK(rest, k - 1, score);
      TopKStep(candidates, b, rest, tail, score);
      [candidates[b]] + tail
  }

  /** Taking the best candidate first, then the best of the rest, keeps the three properties. */
  lemma TopKStep(candidates: seq<Doc>, b: nat, rest: seq<Doc>, tail: seq<Doc>, score: Doc -> int)
    requires b < |candidates| && rest == candidates[..b] + candidates[b + 1..]
    requires forall i :: 0 <= i < |candidates| ==> score(candidates[i]) <= score(candidates[b])
    requires multiset(tail) <= multiset(rest)
    requires Descending(tail, score)
    requires NoneSkippedAbove(rest, tail, score)
    ensures multiset([candidates[b]] + tail) <= multiset(candidates)
    ensures Descending([candidates[b]] + tail, score)
    ensures NoneSkippedAbove(candidates, [candidates[b]] + tail, score)
  {
    var best := candidates[b];
    var r := [best] + tail;
    RemoveOne(candidates, b, rest);
    assert multiset(r) == multiset(tail) + multiset{best};
    TailBelowBest(rest, tail, best, score, candidates);
    BestFirstSorted(best, tail, score);
    SkippedBelowTaken(candidates, rest, tail, best, score);
  }

  /** Taking out the element at `b` leaves the others, and nothing new. */
  lemma RemoveOne(candidates: seq<Doc>, b: nat, rest: seq<Doc>)
    requires b < |candidates| && rest == candidates[..b] + candidates[b + 1..]
    ensures multiset(candidates) == multiset(rest) + multiset{candidates[b]}
    ensures forall x :: x in rest ==> x in candidates
  {
    assert candidates == candidates[..b] + [candidates[b]] + candidates[b + 1..];
  }

  lemma TailBelowBest(rest: seq<Doc>, tail: seq<Doc>, best: Doc, score: Doc -> int, candidates: seq<Doc>)
    requires multiset(tail) <= multiset(rest)
    requires forall x :: x in rest ==> x in candidates
    requires forall i :: 0 <= i < |candidates| ==> score(candidates[i]) <= score(best)
    ensures forall y :: y in tail ==> score(y) <= score(best)
  {
    forall y | y in tail ensures score(y) <= score(best) {
      assert y in multiset(tail);
      assert y in rest;
    }
  }

  lemma BestFirstSorted(best: Doc, tail: seq<Doc>, score: Doc -> int)
    requires forall y :: y in tail ==> score(y) <= score(best)
    requires Descending(tail, score)
    ensures Descending([best] + tail, score)
  {
    var r := [best] + tail;
    forall i, j | 0 <= i < j < |r| ensures score(r[i]) >= score(r[j]) {
      assert r[j] == tail[j - 1];
      if i > 0 {
        assert r[i] == tail[i - 1];
      }
    }
  }

  lemma SkippedBelowTaken(candidates: seq<Doc>, rest: seq<Doc>, tail: seq<Doc>, best: Doc, score: Doc -> int)
    requires multiset(candidates) == multiset(rest) + multiset{best}
    requires multiset(tail) <= multiset(rest)
    requires forall i :: 0 <= i < |candidates| ==> score(candidates[i]) <= score(best)
    requires NoneSkippedAbove(rest, tail, score)
    ensures NoneSkippedAbove(candidates, [best] + tail, score)
  {
    var r := [best] + tail;
    assert multiset(r) == multiset(tail) + multiset{best};
    assert multiset(candidates) - multiset(r) == multiset(rest) - multiset(tail);
    forall x, y | x in multiset(candidates) - multiset(r) && y in r ensures score(x) <= score(y) {
      assert x in candidates;
      if y != best {
        assert y in tail;
      }
    }
  }

  /**
   * The retriever: the records of the file, ranked by their similarity to
   * the query, the best `K` of them.
   */
  function Retrieve(records: seq<Doc>, fileId: int, query: string, similarity: (string, Doc) -> int): (r: seq<Doc>)
    ensures forall d :: d in r ==> d in records && TaggedWith(d, fileId)
    ensures |r| == if CountTagged(records, fileId) < K then CountTagged(records, fileId) else K
  {
    var own := FilterByFile(records, fileId);
    var r := TopK(own, K, d => similarity(query, d));
    DrawnFrom(r, own);
    r
  }

  /** What a sub-multiset holds, the whole holds. */
  lemma DrawnFrom(part: seq<Doc>, whole: seq<Doc>)
    requires multiset(part) <= multiset(whole)
    ensures forall d :: d in part ==> d in whole
  {
    forall d | d in part ensures d in whole {
      assert d in multiset(part);
    }
  }

  // ---------------------------------------------------------------------------
  // The prompt
  // ---------------------------------------------------------------------------

  /** The placeholder for the retrieved text in the system template. */
  const ContextSlot: string := "{context}"

  /** The placeholder for the chain's input in the user template. */
  const AnswerSlot: string := "{format_answer}"

  /** The system template up to its placeholder, line breaks and indentation included. */
  const SystemPrefix: string :=
    SystemLine1a + SystemLine1b + SystemLine2a + SystemLine2b + SystemLine2c + SystemLine3

  const SystemLine1a: string := "Use the following pieces of context, "
  const SystemLine1b: string := "explain what is it about and summarize it.\n"
  const SystemLine2a: string := "      If you can't explain it, "
  const SystemLine2b: string := "just say that you don't know, "
  const SystemLine2c: string := "don't try to make up some explanation.\n"
  const SystemLine3: string := "      ----------------\n      "

  const SystemTemplate: string := SystemPrefix + ContextSlot

  /** The user template is its placeholder alone. */
  const HumanTemplate: string := AnswerSlot

  /**
   * The instructions the chain is invoked with: a title, an author line, a
   * subject, a description and a conclusion, with the template literal's
   * line breaks and indentation.
   */
  const FormatSummarization: string :=
    "\n    Give it title, subject, description, and the conclusion of the context in this format, replace the brackets with the actual content:\n"
    + "    \n"
    + "    [Write the title here]\n\n"
    + "    By: [Name of the author or owner or user or publisher or writer or reporter if possible, otherwise leave it \"Not Specified\"]\n\n"
    + "    [Write the subject, it could be a long text, at least minimum of 300 characters]\n\n"
    + "    ----------------\n\n"
    + "    [Write the description in here, it could be a long text, at least minimum of 1000 characters]\n\n"
    + "    Conclusion:\n"
    + "    [Write the conclusion in here, it could be a long text, at least minimum of 500 characters]\n"
    + "    "

  /** `slot` occurs in `s` at position `i`. */
  predicate SlotAt(s: string, i: nat, slot: string) {
    i + |slot| <= |s| && s[i..i + |slot|] == slot
  }

  /**
   * Template filling: every occurrence of the placeholder `slot`, read left to
   * right, is replaced by `value`, and the value itself is not scanned again.
   * Filling the placeholder with itself gives the template back.
   */
  function Substitute(template: string, slot: string, value: string): (r: string)
    requires slot != []
    ensures value == slot ==> r == template
    decreases |template|
  {
    if template == [] then []
    else if SlotAt(template, 0, slot) then
      assert template == template[..|slot|] + template[|slot|..];
      value + Substitute(template[|slot|..], slot, value)
    else
      assert template == [template[0]] + template[1..];
      [template[0]] + Substitute(template[1..], slot, value)
  }

  /** A template without the placeholder's first character is left as it is. */
  lemma {:induction false} SubstituteNothing(template: string, slot: string, value: string)
    requires slot != [] && slot[0] !in template
    ensures Substitute(template, slot, value) == template
    decreases |template|
  {
    if template != [] {
      assert template[0] in template;
      SkipFirst(template, slot, value);
      assert forall c :: c in template[1..] ==> c in template;
      SubstituteNothing(template[1..], slot, value);
      assert template == [template[0]] + template[1..];
    }
  }

  /** Where the placeholder's first character is not, the first character is copied. */
  lemma SkipFirst(t: string, slot: string, value: string)
    requires slot != [] && t != [] && t[0] != slot[0]
    ensures Substitute(t, slot, value) == [t[0]] + Substitute(t[1..], slot, value)
  {
    assert t[0] != slot[0];
  }

  /** The placeholder alone becomes the value. */
  lemma SubstituteSlot(slot: string, value: string)
    requires slot != []
    ensures Substitute(slot, slot, value) == value
  {
    assert SlotAt(slot, 0, slot);
    assert slot[|slot|..] == [];
  }

  /** Text before the placeholder is kept and the placeholder becomes the value. */
  lemma {:induction false} SubstituteAfter(prefix: string, slot: string, value: string)
    requires slot != [] && slot[0] !in prefix
    ensures Substitute(prefix + slot, slot, value) == prefix + value
    decreases |prefix|
  {
    if prefix == [] {
      assert prefix + slot == slot;
      SubstituteSlot(slot, value);
    } else {
      var t := prefix + slot;
      var rest := prefix[1..];
      assert prefix == [prefix[0]] + rest;
      assert t[1..] == rest + slot;
      SkipFirst(t, slot, value);
      SubstituteAfter(rest, slot, value);
    }
  }

  lemma SystemLine1HasNoBrace()
    ensures '{' !in SystemLine1a && '{' !in SystemLine1b
  {
  }

  lemma SystemLine2HasNoBrace()
    ensures '{' !in SystemLine2a && '{' !in SystemLine2b
  {
  }

  lemma SystemLine3HasNoBrace()
    ensures '{' !in SystemLine2c && '{' !in SystemLine3
  {
  }

  /** The system message is the fixed instructions followed by the retrieved text. */
  lemma SystemMessageText(context: string)
    ensures Substitute(SystemTemplate, ContextSlot, context) == SystemPrefix + context
  {
    SystemLine1HasNoBrace();
    SystemLine2HasNoBrace();
    SystemLine3HasNoBrace();
    assert '{' !in SystemPrefix;
    SubstituteAfter(SystemPrefix, ContextSlot, context);
  }

  /** The user message is the chain's input, as it is. */
  lemma HumanMessageText(input: string)
    ensures Substitute(HumanTemplate, AnswerSlot, input) == input
  {
    SubstituteSlot(AnswerSlot, input);
  }

  datatype Message = SystemMessage(text: string) | HumanMessage(text: string)

  /** The chat prompt: the system template filled with the context, the user template with the input. */
  function Prompt(context: string, input: string): (messages: seq<Message>)
    ensures messages == [SystemMessage(SystemPrefix + context), HumanMessage(input)]
  {
    SystemMessageText(context);
    HumanMessageText(input);
    [SystemMessage(Substitute(SystemTemplate, ContextSlot, context)),
     HumanMessage(Substitute(HumanTemplate, AnswerSlot, input))]
  }

  // ---------------------------------------------------------------------------
  // getSummarization
  // ---------------------------------------------------------------------------

  /**
   * The summary of one file: the chain invoked with the format string, which
   * serves as the retriever's query and as the user message; the model's
   * answer is returned as the string output parser leaves it, unchanged. The
   * model is asked with the fixed instructions followed by the retrieved
   * records as text, and the format string as the user message.
   */
  function GetSummarization(records: seq<Doc>, fileId: int, similarity: (string, Doc) -> int,
                            formatDocs: seq<Doc> -> string, llm: seq<Message> -> string): (summary: string)
    ensures var context := formatDocs(Retrieve(records, fileId, FormatSummarization, similarity));
      summary == llm([SystemMessage(SystemPrefix + context), HumanMessage(FormatSummarization)])
  {
    var retrieved := Retrieve(records, fileId, FormatSummarization, similarity);
    llm(Prompt(formatDocs(retrieved), FormatSummarization))
  }

  // ---------------------------------------------------------------------------
  // Properties of getSummarization
  // ---------------------------------------------------------------------------

  /**
   * The retriever sees only the file's own records: what it returns belongs
   * to the file, is drawn from its records, numbers two (or all of them when
   * there are fewer), comes best first, and outscores every record it skips.
   */
  lemma RetrieverStaysInFile(records: seq<Doc>, fileId: int, query: string, similarity: (string, Doc) -> int)
    ensures var r := Retrieve(records, fileId, query, similarity);
      var n := CountTagged(records, fileId);
      (forall d :: d in r ==> d in records && TaggedWith(d, fileId))
      && |r| == (if n < 2 then n else 2)
      && (forall i, j :: 0 <= i < j < |r| ==> similarity(query, r[i]) >= similarity(query, r[j]))
      && (forall x, y :: x in multiset(FilterByFile(records, fileId)) - multiset(r) && y in r
            ==> similarity(query, x) <= similarity(query, y))
  {
  }

  lemma {:induction false} FilterAppend(records: seq<Doc>, others: seq<Doc>, fileId: int)
    requires forall d :: d in others ==> !TaggedWith(d, fileId)
    ensures FilterByFile(records + others, fileId) == FilterByFile(records, fileId)
    decreases |records|
  {
    if records == [] {
      assert records + others == others;
      FilterNone(others, fileId);
    } else {
      assert (records + others)[1..] == records[1..] + others;
      FilterAppend(records[1..], others, fileId);
    }
  }

  lemma {:induction false} FilterNone(records: seq<Doc>, fileId: int)
    requires forall d :: d in records ==> !TaggedWith(d, fileId)
    ensures FilterByFile(records, fileId) == []
    decreases |records|
  {
    if records != [] {
      assert records[0] in records;
      assert forall d :: d in records[1..] ==> d in records;
      FilterNone(records[1..], fileId);
    }
  }

  /** Records written later for other files do not change a file's summary. */
  lemma OtherFilesDoNotMatter(records: seq<Doc>, others: seq<Doc>, fileId: int, similarity: (string, Doc) -> int,
                              formatDocs: seq<Doc> -> string, llm: seq<Message> -> string)
    requires forall d :: d in others ==> !TaggedWith(d, fileId)
    ensures GetSummarization(records + others, fileId, similarity, formatDocs, llm)
         == GetSummarization(records, fileId, similarity, formatDocs, llm)
  {
    FilterAppend(records, others, fileId);
  }
}
