/** Taking one block out of an external file, from memory or through the file itself. */
module ExternalBlocks {
  import opened Primitives
  import opened BlocksFile

  predicate IsBlocksFile(file: seq<byte>)
  {
    |file| >= |BLOCKS_SIGNATURE| && file[..8] == BLOCKS_SIGNATURE
  }

  /** The path taken for bytes already in memory, as a fetched URL's are. */
  function ExtractExternal(file: seq<byte>, index: Option<u64>): Result<seq<byte>>
  {
    if !IsBlocksFile(file) then
      if index.Some? then Err(BadAttribute) else Ok(file)
    else if index.None? then Err(BadAttribute)
    else
      var elements :- ParseBlocks(file);
      match Get(elements, index.value)
      case None => Err(NotFound)
      case Some(e) =>
        if e.IsFree() then Err(NotFound)
        else if e.position + e.length >= U64_LIMIT then Err(Truncated)
        else Slice(file, e)
  }

  /** The path taken for a file on disk, which is never read whole. */
  function ReadExternal(file: seq<byte>, index: Option<u64>): Result<seq<byte>>
    requires |file| < U64_LIMIT
  {
    if !IsBlocksFile(file) then
      if index.Some? then Err(BadAttribute) else Ok(file)
    else if index.None? then Err(BadAttribute)
    else
      var hit :- SeekBlock(file, |file|, index.value);
      match hit
      case Some(data) => Ok(data)
      case None => Err(NotFound)
  }

  /** A placeholder with the identifier comes before every occupied element with it, of which there is one. */
  predicate Shadowed(elements: seq<IndexElement>, id: u64)
  {
    Get(elements, id).Some? && Get(elements, id).value.IsFree() && FirstOccupied(elements, id).Some?
  }

  ghost predicate UniqueIds(elements: seq<IndexElement>)
  {
    forall i, j :: 0 <= i < j < |elements| ==> elements[i].id != elements[j].id
  }

  lemma {:induction false} FirstMatches(elements: seq<IndexElement>, id: u64)
    ensures Get(elements, id).Some? && !Get(elements, id).value.IsFree() ==>
      FirstOccupied(elements, id) == Get(elements, id)
    ensures Get(elements, id).None? ==> FirstOccupied(elements, id).None?
    ensures FirstOccupied(elements, id).Some? ==> !FirstOccupied(elements, id).value.IsFree()
  {
    if elements != [] {
      FirstMatches(elements[1..], id);
    }
  }

  /**
    The two paths give the same answer exactly when no placeholder shadows the block, in a file whose
    index parses; in one whose index does not, exactly when the fault is what both of them report.
   */
  lemma {:induction false} ExternalPathsAgreeExactly(file: seq<byte>, id: u64)
    requires |file| < U64_LIMIT
    ensures ParseBlocks(file).Ok? ==>
      (ReadExternal(file, Some(id)) == ExtractExternal(file, Some(id)) <==> !Shadowed(ParseBlocks(file).value, id))
    ensures ParseBlocks(file).Err? ==>
      (ReadExternal(file, Some(id)) == ExtractExternal(file, Some(id)) <==>
       !IsBlocksFile(file) || FirstOccupied(IndexTrace(file).elements, id).None?
       || Slice(file, FirstOccupied(IndexTrace(file).elements, id).value) == Err(ParseBlocks(file).kind))
  {
    SeekRefinesWalk(file, id);
    FirstMatches(IndexTrace(file).elements, id);
  }

  /** With unique identifiers nothing is shadowed, so the two paths agree on every block. */
  lemma {:induction false} UniqueNeverShadowed(elements: seq<IndexElement>, id: u64)
    requires UniqueIds(elements)
    ensures !Shadowed(elements, id)
  {
    if elements != [] {
      if elements[0].id == id {
        NoneLater(elements[1..], id);
      } else {
        UniqueNeverShadowed(elements[1..], id);
      }
    }
  }

  lemma {:induction false} NoneLater(elements: seq<IndexElement>, id: u64)
    requires forall e <- elements :: e.id != id
    ensures FirstOccupied(elements, id).None?
  {
    if elements != [] {
      NoneLater(elements[1..], id);
    }
  }

  lemma {:induction false} LookupById(elements: seq<IndexElement>, i: nat, id: u64)
    requires i < |elements| && elements[i].id == id && !elements[i].IsFree()
    requires forall j :: 0 <= j < i ==> elements[j].id != id
    ensures FirstOccupied(elements, id) == Some(elements[i]) && Get(elements, id) == Some(elements[i])
  {
    if i > 0 {
      LookupById(elements[1..], i - 1, id);
    }
  }

  lemma {:induction false} LookupMissing(elements: seq<IndexElement>, id: u64)
    requires forall e <- elements :: e.id != id
    ensures FirstOccupied(elements, id) == None && Get(elements, id) == None
  {
    if elements != [] {
      LookupMissing(elements[1..], id);
    }
  }

  lemma {:induction false} FetchIndexed(file: seq<byte>, elements: seq<IndexElement>, i: nat)
    requires |file| < U64_LIMIT && IsBlocksFile(file) && ParseBlocks(file) == Ok(elements)
    requires i < |elements| && !elements[i].IsFree()
    requires forall j :: 0 <= j < i ==> elements[j].id != elements[i].id
    ensures ReadExternal(file, Some(elements[i].id)) == Slice(file, elements[i])
    ensures ExtractExternal(file, Some(elements[i].id)) == Slice(file, elements[i])
  {
    SeekRefinesWalk(file, elements[i].id);
    LookupById(elements, i, elements[i].id);
  }

  lemma {:induction false} FetchMissing(file: seq<byte>, elements: seq<IndexElement>, id: u64)
    requires |file| < U64_LIMIT && IsBlocksFile(file) && ParseBlocks(file) == Ok(elements)
    requires forall j :: 0 <= j < |elements| ==> elements[j].id != id
    ensures ReadExternal(file, Some(id)) == Err(NotFound) && ExtractExternal(file, Some(id)) == Err(NotFound)
  {
    SeekRefinesWalk(file, id);
    LookupMissing(elements, id);
  }

  // -------------------------------------------------- which external files hold a block

  /**
    By either way of reading, a file without the signature is its own block and has no others, and one with it has
    only those it names.
   */
  lemma {:induction false} WholeFileExactly(file: seq<byte>, bytes: seq<byte>)
    requires |file| < U64_LIMIT
    ensures ReadExternal(file, None) == Ok(bytes) <==> bytes == file && !(BLOCKS_SIGNATURE <= file)
    ensures ExtractExternal(file, None) == Ok(bytes) <==> bytes == file && !(BLOCKS_SIGNATURE <= file)
    ensures !(BLOCKS_SIGNATURE <= file) ==> forall id: u64 ::
      ReadExternal(file, Some(id)) == Err(BadAttribute) && ExtractExternal(file, Some(id)) == Err(BadAttribute)
  {
    assert IsBlocksFile(file) <==> BLOCKS_SIGNATURE <= file;
  }

  /**
    Exactly which blocks an index yields from memory: those of an index that parses, whose first element with the
    identifier is occupied and lies within the file.
   */
  lemma {:induction false} ExtractedExactly(file: seq<byte>, id: u64, bytes: seq<byte>)
    requires BLOCKS_SIGNATURE <= file && |file| < U64_LIMIT
    ensures ExtractExternal(file, Some(id)) == Ok(bytes) <==>
      ParseBlocks(file).Ok?
      && exists i :: 0 <= i < |ParseBlocks(file).value| && (var e := ParseBlocks(file).value[i];
           e.id == id && !e.IsFree() && (forall j :: 0 <= j < i ==> ParseBlocks(file).value[j].id != id)
           && e.position + e.length <= |file| && bytes == file[e.position..e.position + e.length])
  {
    assert IsBlocksFile(file);
    if ParseBlocks(file).Ok? {
      hide ParseBlocks;
      GotExactly(ParseBlocks(file).value, id);
    }
  }

  lemma {:induction false} GotExactly(elements: seq<IndexElement>, id: u64)
    ensures forall e :: Get(elements, id) == Some(e) <==>
      exists i :: 0 <= i < |elements| && elements[i] == e && e.id == id
                  && forall j :: 0 <= j < i ==> elements[j].id != id
  {
    forall i | 0 <= i < |elements| && elements[i].id == id && forall j :: 0 <= j < i ==> elements[j].id != id
      ensures Get(elements, id) == Some(elements[i])
    {
      GotAt(elements, id, i);
    }
    if Get(elements, id).Some? {
      var i := GotWhere(elements, id);
    }
  }

  lemma {:induction false} GotAt(elements: seq<IndexElement>, id: u64, i: nat)
    requires i < |elements| && elements[i].id == id && forall j :: 0 <= j < i ==> elements[j].id != id
    ensures Get(elements, id) == Some(elements[i])
  {
    if i > 0 {
      GotAt(elements[1..], id, i - 1);
    }
  }

  lemma {:induction false} GotWhere(elements: seq<IndexElement>, id: u64) returns (i: nat)
    requires Get(elements, id).Some?
    ensures i < |elements| && elements[i] == Get(elements, id).value && elements[i].id == id
    ensures forall j :: 0 <= j < i ==> elements[j].id != id
  {
    if elements[0].id == id {
      i := 0;
    } else {
      var k := GotWhere(elements[1..], id);
      i := k + 1;
    }
  }
}
