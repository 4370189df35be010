/** The LRU caches in front of the block store (core/store/cached_store.go over core/store/db_store.go). */
module CachedStore {
  import opened Common

  datatype Header = Header(height: nat, rest: nat)
  datatype Body = Body(txs: seq<nat>, debts: seq<nat>)
  datatype Block = Block(header: Header, body: Option<Body>)

  /** The cached part of the database: the canonical height map, headers, total difficulties and bodies. */
  datatype Raw = Raw(heights: map<nat, nat>, headers: map<nat, Header>, tds: map<nat, int>, bodies: map<nat, Body>) {

    function GetBlockHash(height: nat): Option<nat> {
      if height in heights then Some(heights[height]) else None
    }

    function GetBlockHeader(hash: nat): Option<Header> {
      if hash in headers then Some(headers[hash]) else None
    }

    function GetTotalDifficulty(hash: nat): Option<int> {
      if hash in tds then Some(tds[hash]) else None
    }

    /** A block stored as a bare header has no body. */
    function GetBlock(hash: nat): Option<Block> {
      if hash !in headers then None
      else Some(Block(headers[hash], if hash in bodies then Some(bodies[hash]) else None))
    }

    function PutHeader(hash: nat, header: Header, td: int, isHead: bool): Raw {
      this.(headers := headers[hash := header], tds := tds[hash := td],
            heights := if isHead then heights[header.height := hash] else heights)
    }

    function PutBlock(hash: nat, header: Header, body: Body, td: int, isHead: bool): Raw {
      PutHeader(hash, header, td, isHead).(bodies := bodies[hash := body])
    }

    function DeleteBlock(hash: nat): Raw {
      this.(headers := headers - {hash}, tds := tds - {hash}, bodies := bodies - {hash})
    }
  }

  /** Blocks and total difficulties of all other hashes read as before. */
  ghost predicate OnlyBlock(x: Raw, y: Raw, hash: nat) {
    forall h :: h != hash ==>
      y.GetBlock(h) == x.GetBlock(h) && y.GetTotalDifficulty(h) == x.GetTotalDifficulty(h)
  }

  /** The height map reads as before but for a new head. */
  ghost predicate OnlyHead(x: Raw, y: Raw, hash: nat, height: nat, isHead: bool) {
    forall n :: y.GetBlockHash(n) == if isHead && n == height then Some(hash) else x.GetBlockHash(n)
  }

  /** A header that is put is read under its hash, with its total difficulty, and nothing else changes. */
  lemma PutHeaderReads(raw: Raw, raw': Raw, hash: nat, header: Header, td: int, isHead: bool)
    requires raw' == raw.PutHeader(hash, header, td, isHead)
    ensures raw'.GetBlockHeader(hash) == Some(header) && raw'.GetTotalDifficulty(hash) == Some(td)
    ensures forall h :: h != hash ==> raw'.GetBlockHeader(h) == raw.GetBlockHeader(h)
    ensures OnlyBlock(raw, raw', hash) && OnlyHead(raw, raw', hash, header.height, isHead)
  {
  }

  /** A block that is put is read under its hash, with its total difficulty, and nothing else changes. */
  lemma PutBlockReads(raw: Raw, raw': Raw, hash: nat, header: Header, body: Body, td: int, isHead: bool)
    requires raw' == raw.PutBlock(hash, header, body, td, isHead)
    ensures raw'.GetBlock(hash) == Some(Block(header, Some(body))) && raw'.GetTotalDifficulty(hash) == Some(td)
    ensures raw'.GetBlockHeader(hash) == Some(header)
    ensures forall h :: h != hash ==> raw'.GetBlockHeader(h) == raw.GetBlockHeader(h)
    ensures OnlyBlock(raw, raw', hash) && OnlyHead(raw, raw', hash, header.height, isHead)
  {
  }

  /** Every cached entry is what the database holds. */
  ghost predicate Agrees<K(!new), V>(cache: map<K, V>, read: K -> Option<V>) {
    forall k :: k in cache ==> read(k) == Some(cache[k])
  }

  /** A header written under `hash` changes only the block read there. */
  lemma BlockCacheAfter(raw: Raw, cache: map<nat, Block>, hash: nat, header: Header, td: int, isHead: bool)
    requires Agrees(cache, raw.GetBlock)
    ensures Agrees(cache, raw.PutHeader(hash, header, td, isHead).GetBlock) <==>
      (hash in cache ==> cache[hash].header == header)
  {
    var raw' := raw.PutHeader(hash, header, td, isHead);
    forall k | k in cache && k != hash ensures raw'.GetBlock(k) == Some(cache[k]) {
      assert raw'.GetBlock(k) == raw.GetBlock(k);
    }
  }

  class CachedStore {
    var raw: Raw
    var hashCache: map<nat, nat>
    var headerCache: map<nat, Header>
    var tdCache: map<nat, int>
    var blockCache: map<nat, Block>

    ghost predicate Coherent()
      reads this
    {
      && Agrees(hashCache, raw.GetBlockHash) && Agrees(headerCache, raw.GetBlockHeader)
      && Agrees(tdCache, raw.GetTotalDifficulty) && Agrees(blockCache, raw.GetBlock)
    }

    constructor (raw: Raw)
      ensures Coherent() && this.raw == raw
    {
      this.raw := raw;
      hashCache, headerCache, tdCache, blockCache := map[], map[], map[], map[];
    }

    /** The caches may drop any entries at any time. */
    method Evict(hashes: set<nat>, headers: set<nat>, tds: set<nat>, blocks: set<nat>)
      requires Coherent()
      modifies this`hashCache, this`headerCache, this`tdCache, this`blockCache
      ensures Coherent()
    {
      hashCache, headerCache, tdCache, blockCache :=
        hashCache - hashes, headerCache - headers, tdCache - tds, blockCache - blocks;
    }

    method GetBlockHash(height: nat) returns (r: Option<nat>)
      requires Coherent()
      modifies this`hashCache
      ensures Coherent() && r == raw.GetBlockHash(height)
      ensures hashCache == if r.Some? then old(hashCache)[height := r.value] else old(hashCache)
    {
      if height in hashCache {
        return Some(hashCache[height]);
      }
      r := raw.GetBlockHash(height);
      if r.Some? {
        hashCache := hashCache[height := r.value];
      }
    }

    method GetBlockHeader(hash: nat) returns (r: Option<Header>)
      requires Coherent()
      modifies this`headerCache
      ensures Coherent() && r == raw.GetBlockHeader(hash)
      ensures headerCache == if r.Some? then old(headerCache)[hash := r.value] else old(headerCache)
    {
      if hash in headerCache {
        return Some(headerCache[hash]);
      }
      r := raw.GetBlockHeader(hash);
      if r.Some? {
        headerCache := headerCache[hash := r.value];
      }
    }

    method GetTotalDifficulty(hash: nat) returns (r: Option<int>)
      requires Coherent()
      modifies this`tdCache
      ensures Coherent() && r == raw.GetTotalDifficulty(hash)
      ensures tdCache == if r.Some? then old(tdCache)[hash := r.value] else old(tdCache)
    {
      if hash in tdCache {
        return Some(tdCache[hash]);
      }
      r := raw.GetTotalDifficulty(hash);
      if r.Some? {
        tdCache := tdCache[hash := r.value];
      }
    }

    method GetBlock(hash: nat) returns (r: Option<Block>)
      requires Coherent()
      modifies this`blockCache
      ensures Coherent() && r == raw.GetBlock(hash)
      ensures blockCache == if r.Some? then old(blockCache)[hash := r.value] else old(blockCache)
    {
      if hash in blockCache {
        return Some(blockCache[hash]);
      }
      r := raw.GetBlock(hash);
      if r.Some? {
        blockCache := blockCache[hash := r.value];
      }
    }

    method HasBlock(hash: nat) returns (r: bool)
      requires Coherent()
      ensures r == raw.GetBlockHeader(hash).Some?
    {
      r := hash in headerCache || hash in raw.headers;
    }

    method PutBlockHash(height: nat, hash: nat)
      requires Coherent()
      modifies this`raw, this`hashCache
      ensures Coherent() && raw == old(raw).(heights := old(raw).heights[height := hash])
      ensures hashCache == old(hashCache)[height := hash]
    {
      raw := raw.(heights := raw.heights[height := hash]);
      hashCache := hashCache[height := hash];
    }

    /** RecoverHeightToBlockMap; nothing changes when the database refuses the batch. */
    method RecoverHeightToBlockMap(hash: nat, header: Header, refused: bool) returns (ok: bool)
      requires Coherent()
      modifies this`raw, this`hashCache
      ensures Coherent() && ok == !refused
      ensures raw == if ok then old(raw).(heights := old(raw).heights[header.height := hash]) else old(raw)
      ensures hashCache == if ok then old(hashCache)[header.height := hash] else old(hashCache)
    {
      ok := !refused;
      if ok {
        raw := raw.(heights := raw.heights[header.height := hash]);
        hashCache := hashCache[header.height := hash];
      }
    }

    method DeleteBlockHash(height: nat)
      requires Coherent()
      modifies this`raw, this`hashCache
      ensures Coherent() && raw == old(raw).(heights := old(raw).heights - {height})
      ensures hashCache == old(hashCache) - {height}
    {
      hashCache := hashCache - {height};
      raw := raw.(heights := raw.heights - {height});
    }

    /**
      PutBlockHeader does not touch the block cache: it stays coherent exactly when a block cached under the hash has
      this header, as it has when a hash names one header.
     */
    method PutBlockHeader(hash: nat, header: Header, td: int, isHead: bool)
      requires Coherent()
      modifies this`raw, this`headerCache, this`tdCache, this`hashCache
      ensures raw == old(raw).PutHeader(hash, header, td, isHead)
      ensures raw.GetBlockHeader(hash) == Some(header) && raw.GetTotalDifficulty(hash) == Some(td)
      ensures OnlyBlock(old(raw), raw, hash) && OnlyHead(old(raw), raw, hash, header.height, isHead)
      ensures Coherent() <==> (hash in blockCache ==> blockCache[hash].header == header)
      ensures headerCache == old(headerCache)[hash := header] && tdCache == old(tdCache)[hash := td]
      ensures hashCache == if isHead then old(hashCache)[header.height := hash] else old(hashCache)
    {
      raw := raw.PutHeader(hash, header, td, isHead);
      PutHeaderReads(old(raw), raw, hash, header, td, isHead);
      headerCache := headerCache[hash := header];
      tdCache := tdCache[hash := td];
      if isHead {
        hashCache := hashCache[header.height := hash];
      }
      assert Agrees(headerCache, raw.GetBlockHeader);
      assert Agrees(tdCache, raw.GetTotalDifficulty);
      assert Agrees(hashCache, raw.GetBlockHash);
      BlockCacheAfter(old(raw), blockCache, hash, header, td, isHead);
    }

    method PutBlock(hash: nat, header: Header, body: Body, td: int, isHead: bool)
      requires Coherent()
      modifies this
      ensures Coherent() && raw == old(raw).PutBlock(hash, header, body, td, isHead)
      ensures raw.GetBlock(hash) == Some(Block(header, Some(body))) && raw.GetTotalDifficulty(hash) == Some(td)
      ensures OnlyBlock(old(raw), raw, hash) && OnlyHead(old(raw), raw, hash, header.height, isHead)
      ensures headerCache == old(headerCache)[hash := header] && tdCache == old(tdCache)[hash := td]
      ensures blockCache == old(blockCache)[hash := Block(header, Some(body))]
      ensures hashCache == if isHead then old(hashCache)[header.height := hash] else old(hashCache)
    {
      raw := raw.PutBlock(hash, header, body, td, isHead);
      PutBlockReads(old(raw), raw, hash, header, body, td, isHead);
      headerCache := headerCache[hash := header];
      tdCache := tdCache[hash := td];
      blockCache := blockCache[hash := Block(header, Some(body))];
      if isHead {
        hashCache := hashCache[header.height := hash];
      }
      assert Agrees(headerCache, raw.GetBlockHeader) && Agrees(tdCache, raw.GetTotalDifficulty);
      assert Agrees(hashCache, raw.GetBlockHash) && Agrees(blockCache, raw.GetBlock);
    }

    /** Remove a block, and its height when it is canonical there, from the caches. */
    method Uncache(hash: nat, height: nat, canonical: nat)
      requires Coherent()
      modifies this`headerCache, this`tdCache, this`blockCache, this`hashCache
      ensures Coherent() && headerCache == old(headerCache) - {hash} && tdCache == old(tdCache) - {hash}
      ensures blockCache == old(blockCache) - {hash}
      ensures hashCache == if canonical == hash then old(hashCache) - {height} else old(hashCache)
    {
      if canonical == hash {
        hashCache := hashCache - {height};
      }
      headerCache, tdCache, blockCache := headerCache - {hash}, tdCache - {hash}, blockCache - {hash};
    }

    /** The database part of DeleteBlock, for a block that is in no cache. */
    method DeleteRaw(hash: nat)
      requires Coherent() && hash !in headerCache && hash !in tdCache && hash !in blockCache
      modifies this`raw
      ensures Coherent() && raw == old(raw).DeleteBlock(hash) && hash !in raw.bodies
      ensures raw.GetBlock(hash).None? && raw.GetBlockHeader(hash).None? && raw.GetTotalDifficulty(hash).None?
      ensures OnlyBlock(old(raw), raw, hash) && raw.heights == old(raw).heights
    {
      raw := raw.DeleteBlock(hash);
    }

    /** DeleteBlock; the database refuses (`refused`) when an index of one of the block's debts is missing. */
    method DeleteBlock(hash: nat, refused: bool) returns (ok: bool)
      requires Coherent()
      modifies this
      ensures Coherent()
      ensures ok <==> !refused && hash in old(raw).headers && old(raw).headers[hash].height in old(raw).heights
      ensures !ok ==> raw == old(raw)
      ensures ok ==> raw.GetBlock(hash).None? && raw.GetBlockHeader(hash).None? && raw.GetTotalDifficulty(hash).None?
      ensures ok ==> hash !in raw.bodies && OnlyBlock(old(raw), raw, hash) && raw.heights == old(raw).heights
      ensures ok ==> headerCache == old(headerCache) - {hash} && tdCache == old(tdCache) - {hash}
      ensures ok ==> blockCache == old(blockCache) - {hash}
      ensures ok ==> var height := old(raw).headers[hash].height; var canonical := old(raw).heights[height];
        hashCache == if canonical == hash then old(hashCache) - {height} else old(hashCache)[height := canonical]
    {
      var header := raw.GetBlockHeader(hash);
      if header.None? {
        return false;
      }
      var canonical := GetBlockHash(header.value.height);
      if canonical.None? {
        return false;
      }
      Uncache(hash, header.value.height, canonical.value);
      ok := !refused;
      if ok {
        DeleteRaw(hash);
      }
    }
  }
}
