/** Cutting a byte stream into server-sent event blocks. */
module Sse {
  import opened Wrappers
  import opened Text

  function Boundary(): string { "\n\n" }

  /** The complete blocks of a text, each up to and with its blank line. */
  ghost function EventBlocks(text: string): seq<string>
    decreases |text|
  {
    match Find(text, Boundary(), 0)
    case None => []
    case Some(i) => [text[..i + 2]] + EventBlocks(text[i + 2..])
  }

  /** A block ends with its first blank line. */
  ghost predicate IsBlock(b: string) {
    |b| >= 2 && Find(b, Boundary(), 0) == Some(|b| - 2)
  }

  ghost function Concat(parts: seq<string>): string {
    if |parts| == 0 then "" else parts[0] + Concat(parts[1..])
  }

  /** A block at the front stays a block whatever follows. */
  lemma BlockFirst(b: string, rest: string)
    requires IsBlock(b)
    ensures EventBlocks(b + rest) == [b] + EventBlocks(rest)
  {
    hide Find;
    FindInLonger(b, rest, Boundary(), |b| - 2);
    assert (b + rest)[..|b|] == b && (b + rest)[|b|..] == rest;
  }

  lemma {:induction false} BlocksFirst(blocks: seq<string>, rest: string)
    requires forall b | b in blocks :: IsBlock(b)
    ensures EventBlocks(Concat(blocks) + rest) == blocks + EventBlocks(rest)
  {
    hide IsBlock, EventBlocks;
    if |blocks| == 0 {
      assert "" + rest == rest && blocks + EventBlocks(rest) == EventBlocks(rest);
    } else {
      BlocksFirst(blocks[1..], rest);
      BlockFirst(blocks[0], Concat(blocks[1..]) + rest);
      assert Concat(blocks) + rest == blocks[0] + (Concat(blocks[1..]) + rest);
      assert [blocks[0]] + (blocks[1..] + EventBlocks(rest)) == blocks + EventBlocks(rest);
    }
  }

  lemma {:induction false} ConcatLast(parts: seq<string>, last: string)
    ensures Concat(parts + [last]) == Concat(parts) + last
  {
    if |parts| == 0 {
      assert parts + [last] == [last] && [last][1..] == [] && last + "" == last && "" + last == last;
    } else {
      ConcatLast(parts[1..], last);
      assert (parts + [last])[1..] == parts[1..] + [last];
      Reassociate(parts[0], Concat(parts[1..]), "", last);
    }
  }

  lemma TakeBlock(buffer: string, i: nat)
    requires Find(buffer, Boundary(), 0) == Some(i)
    ensures IsBlock(buffer[..i + 2]) && buffer == buffer[..i + 2] + buffer[i + 2..]
  {
    hide Find;
    var b := buffer[..i + 2];
    Halves(buffer, i + 2);
    FindIsFirst(buffer, Boundary(), 0);
    FindIsFirst(b, Boundary(), 0);
    forall j: nat | j <= i ensures OccursAt(buffer, Boundary(), j) <==> OccursAt(b, Boundary(), j) {
      OccursInLeft(b, buffer[i + 2..], Boundary(), j);
    }
    assert OccursAt(b, Boundary(), i);
  }

  class SseBuffer {
    var buffer: string
    /** All the text pushed, and the blocks taken, so far. */
    ghost var pushed: string
    ghost var taken: seq<string>

    /** Nothing is lost: the blocks taken and what is left in the buffer make up the text pushed. */
    ghost predicate Valid()
      reads this
    {
      && pushed == Concat(taken) + buffer
      && forall b | b in taken :: IsBlock(b)
    }

    constructor ()
      ensures Valid() && pushed == "" && taken == [] && buffer == ""
    {
      buffer, pushed, taken := "", "", [];
    }

    /** Appends a chunk; `lossy` is the replacement-character decoding of UTF-8. */
    method PushChunk(chunk: seq<bv8>, lossy: seq<bv8> -> string)
      requires Valid()
      modifies this
      ensures Valid() && pushed == old(pushed) + lossy(chunk) && taken == old(taken)
    {
      var text := lossy(chunk);
      Reassociate(Concat(taken), buffer, "", text);
      buffer := buffer + text;
      pushed := pushed + text;
    }

    /** Takes the next complete block. When there is none, the blocks taken are exactly those of the whole text. */
    method NextEventBlock() returns (r: Option<string>)
      requires Valid()
      modifies this
      ensures Valid() && pushed == old(pushed)
      ensures r.Some? ==> taken == old(taken) + [r.value] && old(buffer) == r.value + buffer
      ensures r.None? ==> taken == old(taken) && buffer == old(buffer) && taken == EventBlocks(pushed)
      ensures |taken| <= |EventBlocks(pushed)| && taken == EventBlocks(pushed)[..|taken|]
    {
      BlocksFirst(taken, buffer);
      var boundary := Find(buffer, Boundary(), 0);
      if boundary.None? {
        assert taken + [] == taken;
        return None;
      }
      var at := boundary.value;
      TakeBlock(buffer, at);
      var remaining := buffer[at + 2..];
      var eventBlock := buffer[..at + 2];
      ConcatLast(taken, eventBlock);
      Reassociate(Concat(taken), eventBlock, "", remaining);
      buffer := remaining;
      taken := taken + [eventBlock];
      BlocksFirst(taken, buffer);
      return Some(eventBlock);
    }
  }

  /** Two histories of pushes and reads over the same text: when both are drained they have yielded the same blocks. */
  lemma DrainingDependsOnTextOnly(a: seq<string>, b: seq<string>, restA: string, restB: string)
    requires (forall x | x in a :: IsBlock(x)) && forall x | x in b :: IsBlock(x)
    requires Concat(a) + restA == Concat(b) + restB
    requires Find(restA, Boundary(), 0) == None && Find(restB, Boundary(), 0) == None
    ensures a == b && restA == restB
  {
    BlocksFirst(a, restA);
    BlocksFirst(b, restB);
    assert a + [] == a && b + [] == b;
    assert |restA| == |restB|;
    assert restA == (Concat(a) + restA)[|Concat(a)|..];
    assert restB == (Concat(b) + restB)[|Concat(b)|..];
  }
}
