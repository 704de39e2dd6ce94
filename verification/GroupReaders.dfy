/** The loops of the two readers: the assembler's `_groups` and the summarizer's `_complete_messages_after`
    (`secminiagent/memory/context_assembler.py`, `secminiagent/memory/summarizer.py`). */
module GroupReaders {
  import opened Basics
  import opened Messages
  import opened Pairing
  import opened Groups
  import opened GroupLaws

  /** The inner loop both readers run: follow a call's results until one is not expected. */
  method FollowResults(items: seq<Message>, from: nat, calls: set<Id>) returns (cursor: nat, expected: set<Id>)
    requires from <= |items|
    ensures cursor == from + Span(items[from..], calls) <= |items|
    ensures expected == Unanswered(items[from..], calls)
  {
    cursor, expected := from, calls;
    while cursor < |items| && items[cursor].result.Some? && items[cursor].result.value in expected
      invariant from <= cursor <= |items|
      invariant cursor + Span(items[cursor..], expected) == from + Span(items[from..], calls)
      invariant Unanswered(items[cursor..], expected) == Unanswered(items[from..], calls)
    {
      assert items[cursor..][1..] == items[cursor + 1..];
      expected := expected - {items[cursor].result.value};
      cursor := cursor + 1;
    }
  }

  /** Cutting at a position: the chunk that starts there, then the rest. */
  lemma ParseAt(items: seq<Message>, index: nat, cursor: nat, chunk: Chunk)
    requires index < |items| && items[index].result.None?
    requires cursor == index + 1 + Span(items[index + 1..], CallSet(items[index])) <= |items|
    requires chunk == Chunk(items[index..cursor], Unanswered(items[index + 1..], CallSet(items[index])) == {})
    ensures Parse(items[cursor..]).None? ==> Parse(items[index..]).None?
    ensures Parse(items[cursor..]).Some? ==> Parse(items[index..]) == Some([chunk] + Parse(items[cursor..]).value)
  {
    var tail := items[index..];
    assert tail[1..] == items[index + 1..];
    assert tail[..cursor - index] == items[index..cursor] && tail[cursor - index..] == items[cursor..];
  }

  /** What the assembler has when it has kept `done`, dropped `omitted` groups, and the rest cuts into `rest`. */
  ghost function Reading(done: seq<seq<Message>>, omitted: nat, rest: Option<seq<Chunk>>)
    : Option<(seq<seq<Message>>, nat)>
  {
    if rest.None? then None else Some((done + CompleteGroups(rest.value), omitted + IncompleteCount(rest.value)))
  }

  lemma ReadingStep(done: seq<seq<Message>>, omitted: nat, chunk: Chunk, rest: seq<Chunk>)
    ensures Reading(done, omitted, Some([chunk] + rest))
         == if chunk.complete
           then Reading(done + [chunk.items], omitted, Some(rest)) else Reading(done, omitted + 1, Some(rest))
  {
    assert ([chunk] + rest)[1..] == rest;
    if chunk.complete {
      assert done + ([chunk.items] + CompleteGroups(rest)) == done + [chunk.items] + CompleteGroups(rest);
    } else {
      assert [] + CompleteGroups(rest) == CompleteGroups(rest);
    }
  }

  /** The assembler's reader: complete groups are kept, incomplete ones dropped whole and counted, an orphan is an
      error. */
  method ParseGroups(items: seq<Message>) returns (groups: Option<seq<seq<Message>>>, omitted: nat)
    ensures groups.Some? <==> NoOrphans(items)
    ensures groups.Some? <==> Parse(items).Some?
    ensures groups.Some? ==>
      groups.value == CompleteGroups(Parse(items).value) && omitted == IncompleteCount(Parse(items).value)
  {
    ReadableIffNoOrphans(items);
    var done: seq<seq<Message>> := [];
    omitted := 0;
    var index := 0;
    assert items[0..] == items;
    ghost var goal := Reading([], 0, Parse(items));
    while index < |items|
      invariant index <= |items|
      invariant Reading(done, omitted, Parse(items[index..])) == goal
    {
      var item := items[index];
      if item.result.Some? { return None, omitted; }
      var cursor, expected := FollowResults(items, index + 1, CallSet(item));
      ghost var chunk := Chunk(items[index..cursor], expected == {});
      ParseAt(items, index, cursor, chunk);
      if Parse(items[cursor..]).Some? { ReadingStep(done, omitted, chunk, Parse(items[cursor..]).value); }
      if expected != {} {
        omitted := omitted + 1;
      } else {
        done := done + [items[index..cursor]];
      }
      index := cursor;
    }
    groups := Some(done);
    assert Parse(items[index..]) == Some([]);
    assert goal == Some((done, omitted)) by { assert done + [] == done; }
    assert [] + CompleteGroups(Parse(items).value) == CompleteGroups(Parse(items).value);
  }

  lemma CompletePrefixAt(items: seq<Message>, index: nat, cursor: nat)
    requires index < |items| && items[index].result.None?
    requires cursor == index + 1 + Span(items[index + 1..], CallSet(items[index])) <= |items|
    requires Unanswered(items[index + 1..], CallSet(items[index])) == {}
    ensures CompletePrefix(items[index..]) == Prepend(items[index..cursor], CompletePrefix(items[cursor..]))
  {
    var tail := items[index..];
    assert tail[1..] == items[index + 1..];
    assert tail[..cursor - index] == items[index..cursor] && tail[cursor - index..] == items[cursor..];
  }

  ghost function Prepend(done: seq<Message>, rest: Option<seq<Message>>): Option<seq<Message>> {
    if rest.None? then None else Some(done + rest.value)
  }

  /** The summary's reader over the messages after the watermark. */
  method CompleteMessagesAfter(items: seq<Message>, watermark: nat) returns (selected: Option<seq<Message>>)
    requires AllShaped(items)
    ensures selected == CompletePrefix(After(items, watermark))
  {
    var candidates := After(items, watermark);
    var done: seq<Message> := [];
    var index := 0;
    assert candidates[0..] == candidates;
    AfterMembers(items, watermark);
    ghost var goal := CompletePrefix(candidates);
    PrependNothing(goal);
    while index < |candidates|
      invariant index <= |candidates|
      invariant Prepend(done, CompletePrefix(candidates[index..])) == goal
    {
      var item := candidates[index];
      assert item in candidates;
      NoCalls(item);
      ghost var tail := candidates[index + 1..];
      assert candidates[index..][1..] == tail;
      if item.calls == [] {
        if item.result.Some? { return None; }
        CompletePrefixAt(candidates, index, index + 1);
        assert candidates[index..index + 1] == [item];
        PrependMore(done, [item], CompletePrefix(candidates[index + 1..]));
        done := done + [item];
        index := index + 1;
      } else {
        var cursor, pending := FollowResults(candidates, index + 1, CallSet(item));
        if pending != {} {
          assert CompletePrefix(candidates[index..]) == Some([]);
          assert done + [] == done;
          return Some(done);
        }
        CompletePrefixAt(candidates, index, cursor);
        PrependMore(done, candidates[index..cursor], CompletePrefix(candidates[cursor..]));
        done := done + candidates[index..cursor];
        index := cursor;
      }
    }
    selected := Some(done);
    assert CompletePrefix(candidates[index..]) == Some([]);
    assert done + [] == done;
  }

  lemma PrependNothing(rest: Option<seq<Message>>)
    ensures Prepend([], rest) == rest
  {
    if rest.Some? { assert [] + rest.value == rest.value; }
  }

  lemma PrependMore(done: seq<Message>, more: seq<Message>, rest: Option<seq<Message>>)
    ensures Prepend(done + more, rest) == Prepend(done, Prepend(more, rest))
  {
    if rest.Some? { assert done + more + rest.value == done + (more + rest.value); }
  }
}
