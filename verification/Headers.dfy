/**
 * Synthetic block headers.  Cosmos blocks are final at once and cannot be fetched by hash, so
 * the height, printed in decimal, stands in for the hash.
 */
module Headers {
  import opened Wrappers
  import opened Decimal

  /** A JavaScript number that is an integer or NaN. */
  type Height = Option<int>

  datatype Header = Header(blockHeight: Height, blockHash: string, parentHash: string)

  function HeightText(height: Height): string {
    match height
    case None => "NaN"
    case Some(h) => Print(h)
  }

  function Parent(height: Height): Height {
    match height
    case None => None
    case Some(h) => Some(h - 1)
  }

  function CosmosBlockToHeader(height: Height): Header {
    Header(height, HeightText(height), HeightText(Parent(height)))
  }

  function GetHeaderForHeight(height: Height): Header {
    CosmosBlockToHeader(height)
  }

  function GetHeaderForHash(hash: string): Header {
    GetHeaderForHeight(ParseInt(hash))
  }

  /** Follows `parentHash` through the lookup `find` for `k` times. */
  function Ancestor(find: string -> Header, header: Header, k: nat): Header
    decreases k
  {
    if k == 0 then header else Ancestor(find, find(header.parentHash), k - 1)
  }

  lemma HashFindsHeader(height: Height)
    ensures GetHeaderForHash(CosmosBlockToHeader(height).blockHash) == CosmosBlockToHeader(height)
  {
    match height
    case None =>
    case Some(h) =>
      ParsePrint(h, "");
      assert Print(h) + "" == Print(h);
  }

  lemma ParentHashFindsParent(h: int)
    ensures GetHeaderForHash(CosmosBlockToHeader(Some(h)).parentHash) == CosmosBlockToHeader(Some(h - 1))
  {
    HashFindsHeader(Some(h - 1));
  }

  /** A lookup that finds each parent descends by one per step. */
  lemma {:induction false} Descend(find: string -> Header, of: int -> Header, h: int, k: nat)
    requires forall i: int :: find(of(i).parentHash) == of(i - 1)
    ensures Ancestor(find, of(h), k) == of(h - k)
    decreases k
  {
    if k == 0 {
    } else {
      assert find(of(h).parentHash) == of(h - 1);
      Descend(find, of, h - 1, k - 1);
    }
  }

  /** Walking `k` parent hashes back from height `h` arrives at the header of `h - k`. */
  lemma {:induction false} AncestorIsSubtraction(h: int, k: nat)
    ensures Ancestor(GetHeaderForHash, CosmosBlockToHeader(Some(h)), k) == CosmosBlockToHeader(Some(h - k))
  {
    var of := (i: int) => CosmosBlockToHeader(Some(i));
    forall i: int ensures GetHeaderForHash(of(i).parentHash) == of(i - 1) {
      ParentHashFindsParent(i);
    }
    Descend(GetHeaderForHash, of, h, k);
  }

  /** Headers link up exactly when the heights are consecutive, and no two heights share a hash. */
  lemma HashesIdentifyHeights(a: int, b: int)
    ensures CosmosBlockToHeader(Some(a)).blockHash == CosmosBlockToHeader(Some(b)).blockHash <==> a == b
    ensures CosmosBlockToHeader(Some(b)).parentHash == CosmosBlockToHeader(Some(a)).blockHash <==> b == a + 1
  {
    if Print(a) == Print(b) {
      PrintInjective(a, b);
    }
    if Print(b - 1) == Print(a) {
      PrintInjective(b - 1, a);
    }
  }

  /** A looked-up header carries the hash it was looked up by exactly when that hash is canonical or "NaN". */
  lemma LookupKeepsHash(hash: string)
    ensures GetHeaderForHash(hash).blockHash == hash <==> Canonical(hash) || hash == "NaN"
  {
    match ParseInt(hash)
    case Some(n) =>
      PrintParse(hash, n);
    case None =>
      if Canonical(hash) {
        CanonicalParses(hash);
      }
  }

  /** The fields of a header: the height itself, and two texts that read as the height and as its predecessor. */
  lemma HeaderFields(h: int)
    ensures var header := GetHeaderForHeight(Some(h));
            && header.blockHeight == Some(h)
            && Canonical(header.blockHash) && ParseInt(header.blockHash) == Some(h)
            && Canonical(header.parentHash) && ParseInt(header.parentHash) == Some(h - 1)
  {
    PrintIsCanonical(h);
    PrintIsCanonical(h - 1);
    PrintedParses(h);
    PrintedParses(h - 1);
  }

  lemma PrintedParses(n: int)
    ensures ParseInt(Print(n)) == Some(n)
  {
    ParsePrint(n, "");
    assert Print(n) + "" == Print(n);
  }
}
