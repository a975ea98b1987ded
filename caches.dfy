/**
 * The two cache tables and their repositories.
 *
 * `related_organisms` maps a normalised organism name (lower-cased, then
 * trimmed) to the comma-joined BLAST result; `future_house_literature` maps
 * an organisms key, exactly as given, to a literature text. In both the key
 * is the primary key, and there is no update or delete: an insert under a
 * key already present fails and changes nothing.
 */
module Caches {
  import opened Wrappers
  import opened Strings

  datatype StoreError = DuplicateKey  // the primary key is already taken

  // ---------------------------------------------------------------------------
  // related_organisms
  // ---------------------------------------------------------------------------

  /** `organism.lower().strip()` */
  function NormalKey(organism: string): string {
    Strip(Lower(organism))
  }

  /** The lookup of `get_by_organism` over a table of entries. */
  function LookupOrganism(entries: map<string, string>, organism: string): Option<string> {
    var key := NormalKey(organism);
    if key in entries then Some(entries[key]) else None
  }

  /** Normalising twice is normalising once. */
  lemma NormalKeyIdempotent(organism: string)
    ensures NormalKey(NormalKey(organism)) == NormalKey(organism)
  {
    var l := Lower(organism);
    LowerStripCommute(l);
    LowerIdempotent(organism);
    StripIdempotent(l);
  }

  /** Names that differ only in letter case or in surrounding whitespace
      normalise alike. */
  lemma NormalKeyVariants(name: string, variant: string, ws1: string, ws2: string)
    requires Lower(variant) == Lower(name) && AllSpaces(ws1) && AllSpaces(ws2)
    ensures NormalKey(ws1 + variant + ws2) == NormalKey(name)
  {
    LowerAppend(ws1 + variant, ws2);
    LowerAppend(ws1, variant);
    LowerOfSpaces(ws1);
    LowerOfSpaces(ws2);
    StripPadded(ws1, Lower(variant), ws2);
  }

  /** After an entry is stored for `name`, a lookup with any name of the same
      normal form finds it; any other lookup is unaffected. */
  lemma LookupAfterStore(entries: map<string, string>, name: string, related: string, query: string)
    ensures NormalKey(query) == NormalKey(name) ==>
      LookupOrganism(entries[NormalKey(name) := related], query) == Some(related)
    ensures NormalKey(query) != NormalKey(name) ==>
      LookupOrganism(entries[NormalKey(name) := related], query) == LookupOrganism(entries, query)
  {
  }

  class RelatedOrganismsStore {
    var entries: map<string, string>

    constructor ()
      ensures entries == map[]
    {
      entries := map[];
    }

    /** `get_by_organism(organism)` */
    function GetByOrganism(organism: string): Option<string>
      reads this
    {
      LookupOrganism(entries, organism)
    }

    /** `create(organism, related_organisms)`: stores the payload under the
        normalised name unless that key is taken. */
    method Create(organism: string, related: string) returns (res: Result<(), StoreError>)
      modifies this
      ensures NormalKey(organism) in old(entries) ==> res == Failure(DuplicateKey) && entries == old(entries)
      ensures NormalKey(organism) !in old(entries) ==>
        res.Success? && entries == old(entries)[NormalKey(organism) := related]
      ensures forall k :: k in old(entries) ==> k in entries && entries[k] == old(entries)[k]
    {
      var key := NormalKey(organism);
      if key in entries {
        return Failure(DuplicateKey);
      }
      entries := entries[key := related];
      res := Success(());
    }
  }

  // ---------------------------------------------------------------------------
  // future_house_literature
  // ---------------------------------------------------------------------------

  class LiteratureStore {
    var entries: map<string, string>

    constructor ()
      ensures entries == map[]
    {
      entries := map[];
    }

    /** `get_by_organisms(key)`: exact, case-sensitive key match. */
    function GetByOrganisms(key: string): Option<string>
      reads this
    {
      if key in entries then Some(entries[key]) else None
    }

    /** `create(key, literature)`: one new entry, key and text unchanged,
        unless the key is taken. */
    method Create(key: string, literature: string) returns (res: Result<(), StoreError>)
      modifies this
      ensures key in old(entries) ==> res == Failure(DuplicateKey) && entries == old(entries)
      ensures key !in old(entries) ==> res.Success? && entries == old(entries)[key := literature]
      ensures forall k :: k in old(entries) ==> k in entries && entries[k] == old(entries)[k]
    {
      if key in entries {
        return Failure(DuplicateKey);
      }
      entries := entries[key := literature];
      res := Success(());
    }
  }
}
