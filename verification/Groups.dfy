/** The two readers that cut a thread's log into tool groups: the context assembler's
    (`secminiagent/memory/context_assembler.py`) and the rolling summary's (`secminiagent/memory/summarizer.py`). */
module Groups {
  import opened Basics
  import opened Messages
  import opened Pairing

  /** A message with the results that follow it; complete when every call it declares is answered. */
  datatype Chunk = Chunk(items: seq<Message>, complete: bool)

  // ----- Cutting a log -----

  /** How many leading messages answer the expected calls, each call once. */
  function Span(items: seq<Message>, expected: set<Id>): (n: nat)
    ensures n <= |items|
  {
    if items != [] && items[0].result.Some? && items[0].result.value in expected
    then 1 + Span(items[1..], expected - {items[0].result.value})
    else 0
  }

  /** The expected calls the leading messages leave unanswered. */
  function Unanswered(items: seq<Message>, expected: set<Id>): set<Id> {
    if items != [] && items[0].result.Some? && items[0].result.value in expected
    then Unanswered(items[1..], expected - {items[0].result.value})
    else expected
  }

  /** Cuts a log into chunks; a result that no chunk expects is an orphan, and the log cannot be read. */
  function Parse(items: seq<Message>): Option<seq<Chunk>> {
    if items == [] then Some([])
    else if items[0].result.Some? then None
    else
      var k := 1 + Span(items[1..], CallSet(items[0]));
      var chunk := Chunk(items[..k], Unanswered(items[1..], CallSet(items[0])) == {});
      match Parse(items[k..]) {
        case None => None
        case Some(rest) => Some([chunk] + rest)
      }
  }

  function Flatten(groups: seq<seq<Message>>): seq<Message> {
    if groups == [] then [] else groups[0] + Flatten(groups[1..])
  }

  function AllItems(chunks: seq<Chunk>): seq<Message> {
    if chunks == [] then [] else chunks[0].items + AllItems(chunks[1..])
  }

  /** The groups of the complete chunks, in order. */
  function CompleteGroups(chunks: seq<Chunk>): seq<seq<Message>> {
    if chunks == [] then [] else
      (if chunks[0].complete then [chunks[0].items] else []) + CompleteGroups(chunks[1..])
  }

  function IncompleteCount(chunks: seq<Chunk>): nat {
    if chunks == [] then 0 else (if chunks[0].complete then 0 else 1) + IncompleteCount(chunks[1..])
  }

  /** The messages before the first incomplete chunk. */
  function BeforeIncomplete(chunks: seq<Chunk>): seq<Message> {
    if chunks == [] || !chunks[0].complete then [] else chunks[0].items + BeforeIncomplete(chunks[1..])
  }

  /** The calls a chunk still waits for. */
  function Open(chunk: Chunk): set<Id> {
    if chunk.items == [] then {} else Unanswered(chunk.items[1..], CallSet(chunk.items[0]))
  }

  /** A whole group: a message that answers nothing, followed by exactly one result for each call it declares. */
  predicate IsGroup(g: seq<Message>) {
    && g != []
    && g[0].result.None?
    && Span(g[1..], CallSet(g[0])) == |g| - 1
    && Unanswered(g[1..], CallSet(g[0])) == {}
  }

  // ----- The summary's reading -----

  /** The messages the summary reader selects; reading stops at the first incomplete group, so an orphan matters only
      before it. */
  function CompletePrefix(items: seq<Message>): Option<seq<Message>> {
    if items == [] then Some([])
    else if items[0].result.Some? then None
    else
      var k := 1 + Span(items[1..], CallSet(items[0]));
      if Unanswered(items[1..], CallSet(items[0])) != {} then Some([])
      else match CompletePrefix(items[k..]) {
        case None => None
        case Some(rest) => Some(items[..k] + rest)
      }
  }

  /** The messages after the watermark, in log order. */
  function After(items: seq<Message>, watermark: nat): seq<Message> {
    if items == [] then [] else
      (if items[0].threadSeq > watermark then [items[0]] else []) + After(items[1..], watermark)
  }

  lemma {:induction false} AfterMembers(items: seq<Message>, watermark: nat)
    ensures forall m :: m in After(items, watermark) <==> m in items && m.threadSeq > watermark
    decreases |items|
  {
    if items != [] {
      AfterMembers(items[1..], watermark);
      assert items == [items[0]] + items[1..];
    }
  }
}
