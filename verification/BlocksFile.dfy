/** The index of a data blocks file: a linked list of nodes, walked in memory and by seeking. */
module BlocksFile {
  import opened Primitives

  // "XISB0100"
  const BLOCKS_SIGNATURE: seq<byte> := [0x58, 0x49, 0x53, 0x42, 0x30, 0x31, 0x30, 0x30]
  const BLOCKS_PREAMBLE_LEN: nat := 16
  const ELEMENT_SIZE: nat := 40
  const MAX_NODES: nat := 100_000
  const ZEROS4: seq<byte> := [0, 0, 0, 0]
  const ZEROS8: seq<byte> := [0, 0, 0, 0, 0, 0, 0, 0]

  datatype IndexElement = IndexElement(id: u64, position: u64, length: u64, uncompressedLength: u64) {
    /** A zero position is a placeholder: the slot is there and the block is not. */
    predicate IsFree() { position == 0 }
  }

  function U32At(file: seq<byte>, at: nat): (n: nat)
    requires at + 4 <= |file|
    ensures n < U32_LIMIT
  {
    LeValueBound(file[at..at + 4]);
    FieldWidths();
    LeValue(file[at..at + 4])
  }

  function U64At(file: seq<byte>, at: nat): (n: u64)
    requires at + 8 <= |file|
  {
    LeValueBound(file[at..at + 8]);
    FieldWidths();
    LeValue(file[at..at + 8])
  }

  function ElementAt(file: seq<byte>, at: nat): IndexElement
    requires at + ELEMENT_SIZE <= |file|
  {
    IndexElement(U64At(file, at), U64At(file, at + 8), U64At(file, at + 16), U64At(file, at + 24))
  }

  // -------------------------------------------------- what an index is

  function NodeCount(file: seq<byte>, p: nat): nat
    requires p + 16 <= |file|
  {
    U32At(file, p)
  }

  function NodeNext(file: seq<byte>, p: nat): u64
    requires p + 16 <= |file|
  {
    U64At(file, p + 8)
  }

  /** A node lies inside the file with all its elements, and its reserved field is zero. */
  predicate NodeFits(file: seq<byte>, p: nat)
  {
    p + 16 <= |file| && file[p + 4..p + 8] == ZEROS4
    && p + 16 + NodeCount(file, p) * ELEMENT_SIZE <= |file|
  }

  function NodeElements(file: seq<byte>, p: nat): (elements: seq<IndexElement>)
    requires NodeFits(file, p)
  {
    seq(NodeCount(file, p), i requires 0 <= i < NodeCount(file, p) => ElementAt(file, p + 16 + i * ELEMENT_SIZE))
  }

  /** `chain` lists the nodes met by following `next` fields from `start` until zero. */
  ghost predicate Links(file: seq<byte>, start: nat, chain: seq<nat>)
  {
    start == (if chain == [] then 0 else chain[0]) && forall i :: 0 <= i < |chain| ==> LinkAt(file, chain, i)
  }

  /** Node `i` of a chain is a whole node that leads to the next, and the last leads nowhere. */
  predicate LinkAt(file: seq<byte>, chain: seq<nat>, i: nat)
    requires i < |chain|
  {
    chain[i] != 0 && NodeFits(file, chain[i])
    && NodeNext(file, chain[i]) == if i + 1 < |chain| then chain[i + 1] else 0
  }

  ghost predicate Distinct<T(!new)>(s: seq<T>)
  {
    forall i, j :: 0 <= i < j < |s| ==> s[i] != s[j]
  }

  predicate AllFit(file: seq<byte>, chain: seq<nat>)
  {
    forall i :: 0 <= i < |chain| ==> NodeFits(file, chain[i])
  }

  function ChainElements(file: seq<byte>, chain: seq<nat>): (elements: seq<IndexElement>)
    requires AllFit(file, chain)
  {
    if chain == [] then [] else NodeElements(file, chain[0]) + ChainElements(file, chain[1..])
  }

  ghost predicate PreambleHolds(file: seq<byte>)
  {
    |file| >= BLOCKS_PREAMBLE_LEN && file[..8] == BLOCKS_SIGNATURE && file[8..16] == ZEROS8
  }

  /** The chain of a well-formed file: from offset 16, no node twice, within both limits. */
  ghost predicate IndexChain(file: seq<byte>, chain: seq<nat>)
  {
    Links(file, BLOCKS_PREAMBLE_LEN, chain) && AllFit(file, chain) && Distinct(chain) && |chain| < MAX_NODES
    && |ChainElements(file, chain)| <= |file| / ELEMENT_SIZE
  }

  // -------------------------------------------------- the in-memory walk

  /** What a walk saw: the elements of the nodes it accepted, and the fault that stopped it, if any. */
  datatype Trace = Trace(elements: seq<IndexElement>, fault: Option<ErrorKind>)

  function NodeFault(file: seq<byte>, p: nat): Option<ErrorKind>
  {
    if p + 16 > |file| then Some(Truncated)
    else if file[p + 4..p + 8] != ZEROS4 then Some(BadHeader)
    else if p + 16 + NodeCount(file, p) * ELEMENT_SIZE > |file| then Some(Truncated)
    else None
  }

  function Walk(file: seq<byte>, position: nat, seen: set<nat>, found: nat, rounds: nat): Trace
    decreases rounds
  {
    if rounds == 0 then Trace([], Some(BadHeader))
    else if position == 0 then Trace([], None)
    else if position in seen then Trace([], Some(BadHeader))
    else if NodeFault(file, position).Some? then Trace([], NodeFault(file, position))
    else
      var elements := NodeElements(file, position);
      if found + |elements| > |file| / ELEMENT_SIZE then Trace([], Some(BadHeader))
      else
        var rest := Walk(file, NodeNext(file, position), seen + {position}, found + |elements|, rounds - 1);
        Trace(elements + rest.elements, rest.fault)
  }

  function IndexTrace(file: seq<byte>): Trace
  {
    if |file| < BLOCKS_PREAMBLE_LEN then Trace([], Some(Truncated))
    else if file[..8] != BLOCKS_SIGNATURE then Trace([], Some(NotXisf))
    else if file[8..16] != ZEROS8 then Trace([], Some(BadHeader))
    else Walk(file, BLOCKS_PREAMBLE_LEN, {}, 0, MAX_NODES)
  }

  function ParseBlocks(file: seq<byte>): Result<seq<IndexElement>>
  {
    var trace := IndexTrace(file);
    match trace.fault
    case None => Ok(trace.elements)
    case Some(kind) => Err(kind)
  }

  /** The trace of a whole walk, of which `elements` have been collected so far. */
  function Resumed(file: seq<byte>, position: nat, seen: set<nat>, elements: seq<IndexElement>, rounds: nat): Trace
  {
    var rest := Walk(file, position, seen, |elements|, rounds);
    Trace(elements + rest.elements, rest.fault)
  }

  lemma {:induction false} WalkStep(file: seq<byte>, position: nat, seen: set<nat>, elements: seq<IndexElement>,
      rounds: nat)
    requires rounds > 0 && position != 0 && position !in seen && NodeFits(file, position)
    requires |elements| + NodeCount(file, position) <= |file| / ELEMENT_SIZE
    ensures Resumed(file, position, seen, elements, rounds)
         == Resumed(file, NodeNext(file, position), seen + {position}, elements + NodeElements(file, position),
                    rounds - 1)
  {
    var node := NodeElements(file, position);
    var rest := Walk(file, NodeNext(file, position), seen + {position}, |elements| + |node|, rounds - 1);
    assert elements + (node + rest.elements) == elements + node + rest.elements;
  }

  /** The inner loop: append the elements of one node. */
  method PushElements(bytes: seq<byte>, start: nat, elements: seq<IndexElement>) returns (out: seq<IndexElement>)
    requires NodeFits(bytes, start)
    ensures out == elements + NodeElements(bytes, start)
  {
    out := elements;
    var count := U32At(bytes, start);
    for i := 0 to count
      invariant out == elements + NodeElements(bytes, start)[..i]
    {
      out := out + [ElementAt(bytes, start + 16 + i * ELEMENT_SIZE)];
    }
  }

  /** The in-memory walk as the source runs it. */
  method ParseBlocksFile(bytes: seq<byte>) returns (r: Result<seq<IndexElement>>)
    ensures r == ParseBlocks(bytes)
  {
    if |bytes| < BLOCKS_PREAMBLE_LEN {
      return Err(Truncated);
    }
    if bytes[..8] != BLOCKS_SIGNATURE {
      return Err(NotXisf);
    }
    if bytes[8..16] != ZEROS8 {
      return Err(BadHeader);
    }
    var maxElements := |bytes| / ELEMENT_SIZE;
    var elements: seq<IndexElement> := [];
    var seen: set<nat> := {};
    var position: nat := BLOCKS_PREAMBLE_LEN;
    var round := 0;
    while round < MAX_NODES
      invariant round <= MAX_NODES
      invariant IndexTrace(bytes) == Resumed(bytes, position, seen, elements, MAX_NODES - round)
    {
      if position == 0 {
        assert elements + [] == elements;
        return Ok(elements);
      }
      if position in seen {
        return Err(BadHeader);
      }
      var headerEnd := position + 16;
      if headerEnd > |bytes| {
        return Err(Truncated);
      }
      var count := U32At(bytes, position);
      if bytes[position + 4..position + 8] != ZEROS4 {
        return Err(BadHeader);
      }
      var next := U64At(bytes, position + 8);
      if headerEnd + count * ELEMENT_SIZE > |bytes| {
        return Err(Truncated);
      }
      if |elements| + count > maxElements {
        return Err(BadHeader);
      }
      WalkStep(bytes, position, seen, elements, MAX_NODES - round);
      elements := PushElements(bytes, position, elements);
      seen := seen + {position};
      position := next;
      round := round + 1;
    }
    return Err(BadHeader);
  }

  lemma {:induction false} WalkAccepts(file: seq<byte>, position: nat, seen: set<nat>, found: nat, rounds: nat,
      chain: seq<nat>)
    requires Links(file, position, chain) && AllFit(file, chain) && Distinct(chain) && |chain| < rounds
    requires forall i :: 0 <= i < |chain| ==> chain[i] !in seen
    requires found + |ChainElements(file, chain)| <= |file| / ELEMENT_SIZE
    ensures Walk(file, position, seen, found, rounds) == Trace(ChainElements(file, chain), None)
    decreases |chain|
  {
    if chain != [] {
      LinkRest(file, position, chain);
      WalkAccepts(file, NodeNext(file, position), seen + {position}, found + NodeCount(file, position), rounds - 1,
                  chain[1..]);
      WalkUnfolds(file, position, seen, found, rounds);
    }
  }

  /** A walk that ends without fault has followed a chain, which this returns. */
  lemma {:induction false} WalkFollows(file: seq<byte>, position: nat, seen: set<nat>, found: nat, rounds: nat)
      returns (chain: seq<nat>)
    requires Walk(file, position, seen, found, rounds).fault == None
    ensures Links(file, position, chain) && AllFit(file, chain) && Distinct(chain) && |chain| < rounds
    ensures forall i :: 0 <= i < |chain| ==> chain[i] !in seen
    ensures found <= |file| / ELEMENT_SIZE ==> found + |ChainElements(file, chain)| <= |file| / ELEMENT_SIZE
    decreases rounds
  {
    if position == 0 {
      chain := [];
    } else {
      WalkUnfolds(file, position, seen, found, rounds);
      var elements := NodeElements(file, position);
      var rest := WalkFollows(file, NodeNext(file, position), seen + {position}, found + |elements|, rounds - 1);
      chain := [position] + rest;
      LinkFirst(file, position, rest);
    }
  }

  /** One step of a walk that meets an acceptable node. */
  lemma {:induction false} WalkUnfolds(file: seq<byte>, position: nat, seen: set<nat>, found: nat, rounds: nat)
    requires position != 0
    ensures Walk(file, position, seen, found, rounds).fault.None? ==> Acceptable(file, position, seen, found, rounds)
    ensures Acceptable(file, position, seen, found, rounds) ==>
      var rest := Walk(file, NodeNext(file, position), seen + {position}, found + NodeCount(file, position),
                       rounds - 1);
      Walk(file, position, seen, found, rounds) == Trace(NodeElements(file, position) + rest.elements, rest.fault)
  {
  }

  predicate Acceptable(file: seq<byte>, position: nat, seen: set<nat>, found: nat, rounds: nat)
  {
    rounds > 0 && position !in seen && NodeFault(file, position).None?
    && found + NodeCount(file, position) <= |file| / ELEMENT_SIZE
  }

  lemma {:induction false} LinkFirst(file: seq<byte>, position: nat, rest: seq<nat>)
    requires position != 0 && NodeFits(file, position) && Links(file, NodeNext(file, position), rest)
    ensures Links(file, position, [position] + rest) && AllFit(file, [position] + rest) && AllFit(file, rest)
    ensures ChainElements(file, [position] + rest) == NodeElements(file, position) + ChainElements(file, rest)
  {
    var chain := [position] + rest;
    assert chain[1..] == rest;
    forall i | 0 <= i < |chain|
      ensures LinkAt(file, chain, i)
    {
      assert i > 0 ==> LinkAt(file, rest, i - 1);
    }
    LinksFit(file, position, chain);
    LinksFit(file, NodeNext(file, position), rest);
  }

  lemma {:induction false} LinkRest(file: seq<byte>, position: nat, chain: seq<nat>)
    requires Links(file, position, chain) && chain != []
    ensures position == chain[0] != 0 && NodeFits(file, position) && Links(file, NodeNext(file, position), chain[1..])
    ensures AllFit(file, chain) && AllFit(file, chain[1..])
    ensures ChainElements(file, chain) == NodeElements(file, position) + ChainElements(file, chain[1..])
  {
    var rest := chain[1..];
    assert LinkAt(file, chain, 0);
    forall i | 0 <= i < |rest|
      ensures LinkAt(file, rest, i)
    {
      assert LinkAt(file, chain, i + 1);
    }
    LinksFit(file, position, chain);
    LinksFit(file, NodeNext(file, position), rest);
  }

  lemma {:induction false} LinksFit(file: seq<byte>, position: nat, chain: seq<nat>)
    requires Links(file, position, chain)
    ensures AllFit(file, chain)
  {
    forall i | 0 <= i < |chain|
      ensures NodeFits(file, chain[i])
    {
      assert LinkAt(file, chain, i);
    }
  }

  /**
    The exact specification of the index parser: it succeeds just when the file has a chain within
    the limits, and then returns the elements of the chain's nodes in chain order.
   */
  lemma {:induction false} ParseExact(file: seq<byte>)
    ensures ParseBlocks(file).Ok? <==> PreambleHolds(file) && exists chain :: IndexChain(file, chain)
    ensures PreambleHolds(file) ==>
      forall chain :: IndexChain(file, chain) ==> ParseBlocks(file) == Ok(ChainElements(file, chain))
  {
    if PreambleHolds(file) {
      forall chain | IndexChain(file, chain)
        ensures ParseBlocks(file) == Ok(ChainElements(file, chain))
      {
        WalkAccepts(file, BLOCKS_PREAMBLE_LEN, {}, 0, MAX_NODES, chain);
      }
    }
    if ParseBlocks(file).Ok? {
      var chain := WalkFollows(file, BLOCKS_PREAMBLE_LEN, {}, 0, MAX_NODES);
      assert IndexChain(file, chain);
    }
  }

  /** The walk never reports more elements than the file has room for, faulty or not. */
  lemma {:induction false} WalkIsBounded(file: seq<byte>, position: nat, seen: set<nat>, found: nat, rounds: nat)
    requires found <= |file| / ELEMENT_SIZE
    ensures found + |Walk(file, position, seen, found, rounds).elements| <= |file| / ELEMENT_SIZE
    decreases rounds
  {
    if rounds > 0 && position != 0 && position !in seen && NodeFault(file, position).None? {
      var elements := NodeElements(file, position);
      if found + |elements| <= |file| / ELEMENT_SIZE {
        WalkIsBounded(file, NodeNext(file, position), seen + {position}, found + |elements|, rounds - 1);
      }
    }
  }

  // -------------------------------------------------- finding a block

  /** The first element with an identifier, free or not. */
  function Get(elements: seq<IndexElement>, id: u64): (found: Option<IndexElement>)
  {
    if elements == [] then None
    else if elements[0].id == id then Some(elements[0])
    else Get(elements[1..], id)
  }

  /** The first element with an identifier that points at data. */
  function FirstOccupied(elements: seq<IndexElement>, id: u64): (found: Option<IndexElement>)
  {
    if elements == [] then None
    else if elements[0].id == id && !elements[0].IsFree() then Some(elements[0])
    else FirstOccupied(elements[1..], id)
  }

  function Slice(file: seq<byte>, e: IndexElement): Result<seq<byte>>
  {
    if e.position + e.length > |file| then Err(Truncated) else Ok(file[e.position..e.position + e.length])
  }

  /** What a reader should get from a walk: the first block met, else the walk's own outcome. */
  function FirstBlock(trace: Trace, file: seq<byte>, id: u64): Result<Option<seq<byte>>>
  {
    match FirstOccupied(trace.elements, id)
    case Some(e) => (var data :- Slice(file, e); Ok(Some(data)))
    case None => if trace.fault.Some? then Err(trace.fault.value) else Ok(None)
  }

  // -------------------------------------------------- the seeking walk

  /** A source that is read at a cursor, as a file is. */
  class Seeker {
    const data: seq<byte>
    var cursor: nat

    constructor (data: seq<byte>)
      ensures this.data == data && cursor == 0
    {
      this.data := data;
      cursor := 0;
    }

    method Seek(position: nat)
      modifies this
      ensures cursor == position
    {
      cursor := position;
    }

    /** Fills a buffer of `n` bytes or fails; only success says where the cursor is. */
    method ReadExact(n: nat) returns (r: Result<seq<byte>>)
      modifies this
      ensures r == ReadAt(data, old(cursor), n)
      ensures r.Ok? ==> cursor == old(cursor) + n
    {
      if cursor + n > |data| {
        return Err(Io);
      }
      r := Ok(data[cursor..cursor + n]);
      cursor := cursor + n;
    }
  }

  function ReadAt(data: seq<byte>, position: nat, n: nat): (r: Result<seq<byte>>)
    ensures r.Ok? ==> |r.value| == n
  {
    if position + n > |data| then Err(Io) else Ok(data[position..position + n])
  }

  /** The count and the next position of the node at `p`, read through the source. */
  function SeekNode(data: seq<byte>, fileLen: u64, p: nat): Result<(nat, u64)>
  {
    if p + 16 > fileLen then Err(Truncated)
    else
      var node :- ReadAt(data, p, 16);
      if node[4..8] != ZEROS4 then Err(BadHeader)
      else if p + 16 + U32At(node, 0) * ELEMENT_SIZE > fileLen then Err(Truncated)
      else Ok((U32At(node, 0), U64At(node, 8)))
  }

  /** Scan elements `i..count` of the node at `p` for a block. */
  function SeekElements(data: seq<byte>, fileLen: u64, p: nat, i: nat, count: nat, id: u64): Result<Option<seq<byte>>>
    requires i <= count
    decreases count - i
  {
    if i == count then Ok(None)
    else
      var buffer :- ReadAt(data, p + 16 + i * ELEMENT_SIZE, ELEMENT_SIZE);
      var e := ElementAt(buffer, 0);
      if e.id != id || e.IsFree() then SeekElements(data, fileLen, p, i + 1, count, id)
      else if e.position + e.length >= U64_LIMIT || e.position + e.length > fileLen then Err(Truncated)
      else
        var block :- ReadAt(data, e.position, e.length);
        Ok(Some(block))
  }

  function SeekWalk(data: seq<byte>, fileLen: u64, position: nat, seen: set<nat>, counted: nat, rounds: nat, id: u64)
      : Result<Option<seq<byte>>>
    decreases rounds
  {
    if rounds == 0 then Err(BadHeader)
    else if position == 0 then Ok(None)
    else if position in seen then Err(BadHeader)
    else
      var (count, next) :- SeekNode(data, fileLen, position);
      if counted + count > fileLen / ELEMENT_SIZE then Err(BadHeader)
      else
        var hit :- SeekElements(data, fileLen, position, 0, count, id);
        if hit.Some? then Ok(hit)
        else SeekWalk(data, fileLen, next, seen + {position}, counted + count, rounds - 1, id)
  }

  function SeekBlock(data: seq<byte>, fileLen: u64, id: u64): Result<Option<seq<byte>>>
  {
    if |data| < BLOCKS_PREAMBLE_LEN then Err(Truncated)
    else if data[..8] != BLOCKS_SIGNATURE then Err(NotXisf)
    else if data[8..16] != ZEROS8 then Err(BadHeader)
    else SeekWalk(data, fileLen, BLOCKS_PREAMBLE_LEN, {}, 0, MAX_NODES, id)
  }

  /** The inner loop of the seeking walk: the elements of one node, one read each. */
  method ScanNode(source: Seeker, fileLen: u64, p: nat, count: nat, id: u64) returns (r: Result<Option<seq<byte>>>)
    modifies source
    ensures r == SeekElements(source.data, fileLen, p, 0, count, id)
  {
    var i := 0;
    while i < count
      invariant 0 <= i <= count
      invariant SeekElements(source.data, fileLen, p, i, count, id)
                == SeekElements(source.data, fileLen, p, 0, count, id)
    {
      source.Seek(p + 16 + i * ELEMENT_SIZE);
      var buffer := source.ReadExact(ELEMENT_SIZE);
      if buffer.Err? {
        return Err(buffer.kind);
      }
      var e := ElementAt(buffer.value, 0);
      if e.id != id || e.IsFree() {
        i := i + 1;
        continue;
      }
      if e.position + e.length >= U64_LIMIT || e.position + e.length > fileLen {
        return Err(Truncated);
      }
      source.Seek(e.position);
      var block := source.ReadExact(e.length);
      if block.Err? {
        return Err(block.kind);
      }
      return Ok(Some(block.value));
    }
    return Ok(None);
  }

  /** The seeking walk as the source runs it. */
  method ReadBlockFrom(source: Seeker, fileLen: u64, id: u64) returns (r: Result<Option<seq<byte>>>)
    modifies source
    ensures r == SeekBlock(source.data, fileLen, id)
  {
    source.Seek(0);
    var preamble := source.ReadExact(BLOCKS_PREAMBLE_LEN);
    if preamble.Err? {
      return Err(Truncated);
    }
    SubSlice(source.data, 0, BLOCKS_PREAMBLE_LEN, 0, 8);
    SubSlice(source.data, 0, BLOCKS_PREAMBLE_LEN, 8, 16);
    assert preamble.value[..8] == source.data[..8] && preamble.value[8..16] == source.data[8..16];
    if preamble.value[..8] != BLOCKS_SIGNATURE {
      return Err(NotXisf);
    }
    if preamble.value[8..16] != ZEROS8 {
      return Err(BadHeader);
    }
    var maxElements := fileLen / ELEMENT_SIZE;
    var counted: nat := 0;
    var seen: set<nat> := {};
    var position: nat := BLOCKS_PREAMBLE_LEN;
    var round := 0;
    while round < MAX_NODES
      invariant round <= MAX_NODES
      invariant SeekBlock(source.data, fileLen, id)
             == SeekWalk(source.data, fileLen, position, seen, counted, MAX_NODES - round, id)
    {
      if position == 0 {
        return Ok(None);
      }
      if position in seen {
        return Err(BadHeader);
      }
      if position + 16 > fileLen {
        return Err(Truncated);
      }
      source.Seek(position);
      var node := source.ReadExact(16);
      if node.Err? {
        return Err(node.kind);
      }
      var count := U32At(node.value, 0);
      if node.value[4..8] != ZEROS4 {
        return Err(BadHeader);
      }
      var next := U64At(node.value, 8);
      if position + 16 + count * ELEMENT_SIZE > fileLen {
        return Err(Truncated);
      }
      if counted + count > maxElements {
        return Err(BadHeader);
      }
      counted := counted + count;
      var hit := ScanNode(source, fileLen, position, count, id);
      if hit.Err? || hit.value.Some? {
        return hit;
      }
      seen := seen + {position};
      position := next;
      round := round + 1;
    }
    return Err(BadHeader);
  }

  // -------------------------------------------------- the two walks agree

  lemma {:induction false} SeekNodeMatches(file: seq<byte>, p: nat)
    requires |file| < U64_LIMIT
    ensures NodeFault(file, p).Some? ==> SeekNode(file, |file|, p) == Err(NodeFault(file, p).value)
    ensures NodeFault(file, p).None? ==> SeekNode(file, |file|, p) == Ok((NodeCount(file, p), NodeNext(file, p)))
  {
    if p + 16 <= |file| {
      SubSlice(file, p, p + 16, 4, 8);
      SubSlice(file, p, p + 16, 0, 4);
      SubSlice(file, p, p + 16, 8, 16);
    }
  }

  lemma {:induction false} ElementThroughBuffer(file: seq<byte>, at: nat)
    requires at + ELEMENT_SIZE <= |file|
    ensures ElementAt(file[at..at + ELEMENT_SIZE], 0) == ElementAt(file, at)
  {
    SubSlice(file, at, at + 40, 0, 8);
    SubSlice(file, at, at + 40, 8, 16);
    SubSlice(file, at, at + 40, 16, 24);
    SubSlice(file, at, at + 40, 24, 32);
  }

  lemma {:induction false} SeekElementsMatch(file: seq<byte>, p: nat, i: nat, id: u64)
    requires |file| < U64_LIMIT && NodeFits(file, p) && i <= NodeCount(file, p)
    ensures SeekElements(file, |file|, p, i, NodeCount(file, p), id)
         == FirstBlock(Trace(NodeElements(file, p)[i..], None), file, id)
    decreases NodeCount(file, p) - i
  {
    hide LeValue;
    hide Slice;
    var elements := NodeElements(file, p)[i..];
    if i < NodeCount(file, p) {
      var at := p + 16 + i * ELEMENT_SIZE;
      ElementThroughBuffer(file, at);
      assert elements[0] == ElementAt(file, at);
      SeekElementsMatch(file, p, i + 1, id);
      assert elements[1..] == NodeElements(file, p)[i + 1..];
      SeekElementsStep(file, p, i, NodeCount(file, p), id);
    }
  }

  lemma {:induction false} SeekElementsStep(file: seq<byte>, p: nat, i: nat, count: nat, id: u64)
    requires |file| < U64_LIMIT && i < count && p + 16 + count * ELEMENT_SIZE <= |file|
    ensures var e := ElementAt(file[p + 16 + i * ELEMENT_SIZE..p + 16 + i * ELEMENT_SIZE + ELEMENT_SIZE], 0);
      SeekElements(file, |file|, p, i, count, id)
      == if e.id != id || e.IsFree() then SeekElements(file, |file|, p, i + 1, count, id)
         else var data :- Slice(file, e); Ok(Some(data))
  {
  }

  lemma {:induction false} FirstOccupiedConcat(a: seq<IndexElement>, b: seq<IndexElement>, id: u64)
    ensures FirstOccupied(a + b, id) ==
      if FirstOccupied(a, id).Some? then FirstOccupied(a, id) else FirstOccupied(b, id)
  {
    if a == [] {
      assert a + b == b;
    } else {
      assert (a + b)[1..] == a[1..] + b;
      FirstOccupiedConcat(a[1..], b, id);
    }
  }

  lemma {:induction false} SeekWalkMatches(file: seq<byte>, position: nat, seen: set<nat>, found: nat, rounds: nat,
      id: u64)
    requires |file| < U64_LIMIT
    ensures SeekWalk(file, |file|, position, seen, found, rounds, id)
         == FirstBlock(Walk(file, position, seen, found, rounds), file, id)
    decreases rounds
  {
    hide Walk;
    hide SeekWalk;
    hide FirstBlock;
    SeekNodeMatches(file, position);
    if position != 0 && Acceptable(file, position, seen, found, rounds) {
      var next, count := NodeNext(file, position), NodeCount(file, position);
      SeekWalkMatches(file, next, seen + {position}, found + count, rounds - 1, id);
      SeekWalkGoesOn(file, position, seen, found, rounds, id);
    } else {
      SeekWalkStops(file, position, seen, found, rounds, id);
    }
  }

  lemma {:induction false} SeekWalkStops(file: seq<byte>, position: nat, seen: set<nat>, found: nat, rounds: nat,
      id: u64)
    requires |file| < U64_LIMIT
    requires position == 0 || !Acceptable(file, position, seen, found, rounds)
    ensures SeekWalk(file, |file|, position, seen, found, rounds, id)
         == FirstBlock(Walk(file, position, seen, found, rounds), file, id)
  {
    SeekNodeMatches(file, position);
  }

  lemma {:induction false} SeekWalkGoesOn(file: seq<byte>, position: nat, seen: set<nat>, found: nat, rounds: nat,
      id: u64)
    requires |file| < U64_LIMIT
    requires position != 0 && Acceptable(file, position, seen, found, rounds)
    requires SeekWalk(file, |file|, NodeNext(file, position), seen + {position}, found + NodeCount(file, position),
                      rounds - 1, id)
          == FirstBlock(Walk(file, NodeNext(file, position), seen + {position}, found + NodeCount(file, position),
                             rounds - 1), file, id)
    ensures SeekWalk(file, |file|, position, seen, found, rounds, id)
         == FirstBlock(Walk(file, position, seen, found, rounds), file, id)
  {
    hide Walk;
    hide SeekWalk;
    hide SeekElements;
    hide FirstBlock;
    var next, count := NodeNext(file, position), NodeCount(file, position);
    SeekNodeMatches(file, position);
    WalkUnfolds(file, position, seen, found, rounds);
    SeekElementsMatch(file, position, 0, id);
    SeekWalkStep(file, position, seen, found, rounds, id, count, next);
    LookupResumes(file, NodeElements(file, position), Walk(file, next, seen + {position}, found + count, rounds - 1),
                  id);
  }

  lemma {:induction false} LookupResumes(file: seq<byte>, elements: seq<IndexElement>, rest: Trace, id: u64)
    ensures FirstBlock(Trace(elements + rest.elements, rest.fault), file, id)
         == Continued(FirstBlock(Trace(elements[0..], None), file, id), FirstBlock(rest, file, id))
  {
    assert elements[0..] == elements;
    LookupConcat(file, elements, rest, id);
  }

  lemma {:induction false} SeekWalkStep(file: seq<byte>, position: nat, seen: set<nat>, found: nat, rounds: nat,
      id: u64, count: nat, next: nat)
    requires |file| < U64_LIMIT
    requires rounds > 0 && position != 0 && position !in seen && SeekNode(file, |file|, position) == Ok((count, next))
    requires found + count <= |file| / ELEMENT_SIZE
    ensures SeekWalk(file, |file|, position, seen, found, rounds, id)
         == Continued(SeekElements(file, |file|, position, 0, count, id),
                      SeekWalk(file, |file|, next, seen + {position}, found + count, rounds - 1, id))
  {
  }

  /** A search of one run, and of what follows it if the run had nothing. */
  function Continued(first: Result<Option<seq<byte>>>, rest: Result<Option<seq<byte>>>): Result<Option<seq<byte>>>
  {
    var hit :- first;
    if hit.Some? then Ok(hit) else rest
  }

  lemma {:induction false} LookupConcat(file: seq<byte>, head: seq<IndexElement>, rest: Trace, id: u64)
    ensures FirstBlock(Trace(head + rest.elements, rest.fault), file, id)
         == Continued(FirstBlock(Trace(head, None), file, id), FirstBlock(rest, file, id))
  {
    FirstOccupiedConcat(head, rest.elements, id);
  }

  /**
    On every file, faulty ones included, the seeking walk returns the first block the in-memory walk
    would have met, and when there is none it ends as the in-memory walk ends.
   */
  lemma {:induction false} SeekRefinesWalk(file: seq<byte>, id: u64)
    requires |file| < U64_LIMIT
    ensures SeekBlock(file, |file|, id) == FirstBlock(IndexTrace(file), file, id)
  {
    if |file| >= BLOCKS_PREAMBLE_LEN && file[..8] == BLOCKS_SIGNATURE && file[8..16] == ZEROS8 {
      SeekWalkMatches(file, BLOCKS_PREAMBLE_LEN, {}, 0, MAX_NODES, id);
    }
  }

  /** The seeking walk reports no block only when the whole index is well formed and has none. */
  lemma {:induction false} SeekNoneExactly(file: seq<byte>, id: u64)
    requires |file| < U64_LIMIT
    ensures SeekBlock(file, |file|, id) == Ok(None)
       <==> ParseBlocks(file).Ok? && FirstOccupied(ParseBlocks(file).value, id) == None
  {
    SeekRefinesWalk(file, id);
  }

  /** The two searches by index: the first match, and nothing before it. */
  lemma {:induction false} FirstOccupiedIs(elements: seq<IndexElement>, id: u64) returns (k: nat)
    ensures k <= |elements|
    ensures forall i :: 0 <= i < k ==> elements[i].id != id || elements[i].IsFree()
    ensures k < |elements| ==>
      elements[k].id == id && !elements[k].IsFree() && FirstOccupied(elements, id) == Some(elements[k])
    ensures k == |elements| ==> FirstOccupied(elements, id) == None
  {
    if elements == [] || (elements[0].id == id && !elements[0].IsFree()) {
      k := 0;
    } else {
      k := FirstOccupiedIs(elements[1..], id);
      k := k + 1;
    }
  }
}
