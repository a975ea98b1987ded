/**
 * `BlastAPI`: the related-organisms lookup.
 *
 * The canonical name of the organism is read from the ORGANISM line of its
 * GenBank record; a BLAST search excluding that name yields alignments; each
 * alignment's title names a species (its first two words); the first hit per
 * species is kept, the species are ordered by decreasing identity, names of
 * uncultured or unnamed ("sp.") species are dropped and the first ten remain.
 * The answer is cached per normalised organism name as a comma-joined string.
 */
module BlastService {
  import opened Wrappers
  import opened Strings
  import opened Sorting
  import opened Sequences
  import opened Caches

  datatype BlastError =
    | ServiceFailed    // an NCBI search, fetch or BLAST request failed
    | NoHsp            // an alignment without HSPs: `hsps[0]` raises
    | ZeroAlignLength  // `identities / align_length` divides by zero

  /** The fields of the first high-scoring pair that the filter reads. */
  datatype Hsp = Hsp(identities: int, alignLength: int, score: real)

  datatype Alignment = Alignment(hitDef: string, hsps: seq<Hsp>)

  /** One entry of the `unique_species` dictionary: its key and its record. */
  datatype SpeciesHit = SpeciesHit(species: string, title: string, score: real, identity: real, alignLength: int)

  const Organism: string := "ORGANISM"

  // ---------------------------------------------------------------------------
  // Canonical name from the GenBank record
  // ---------------------------------------------------------------------------

  predicate OrganismLine(line: string) {
    StartsWith(Strip(line), Organism)
  }

  /** `line.split('ORGANISM')[1].strip()`; the marker occurs in such a line,
      so there is a second piece. */
  function AfterOrganism(line: string): string
    requires OrganismLine(line)
  {
    StrippedPrefixOccurs(line, Organism);
    SplitOnOccurrence(line, Organism);
    Strip(SplitOn(line, Organism)[1])
  }

  /** The canonical name: taken from the first ORGANISM line, or the given
      name when the record has none. */
  function CanonicalNameOf(gbRecord: string, organismName: string): string {
    var lines := SplitOn(gbRecord, "\n");
    match FirstWhere(lines, OrganismLine, 0)
    case None => organismName
    case Some(j) => AfterOrganism(lines[j])
  }

  /** The line loop of `__get_16S_sequence`, leaving at the first ORGANISM line. */
  method CanonicalName(gbRecord: string, organismName: string) returns (canonicalName: string)
    ensures canonicalName == CanonicalNameOf(gbRecord, organismName)
  {
    canonicalName := organismName;
    var lines := SplitOn(gbRecord, "\n");
    for i := 0 to |lines|
      invariant canonicalName == organismName
      invariant FirstWhere(lines, OrganismLine, 0) == FirstWhere(lines, OrganismLine, i)
    {
      if StartsWith(Strip(lines[i]), Organism) {
        canonicalName := AfterOrganism(lines[i]);
        break;
      }
    }
  }

  /** A record without an ORGANISM line leaves the name as given. */
  lemma CanonicalNameDefault(gbRecord: string, organismName: string)
    requires forall k :: 0 <= k < |SplitOn(gbRecord, "\n")| ==> !OrganismLine(SplitOn(gbRecord, "\n")[k])
    ensures CanonicalNameOf(gbRecord, organismName) == organismName
  {
    FirstWhereMeaning(SplitOn(gbRecord, "\n"), OrganismLine, 0);
  }

  /** Otherwise the first ORGANISM line decides, whatever follows it. */
  lemma CanonicalNameFirstLine(gbRecord: string, organismName: string, j: nat)
    requires j < |SplitOn(gbRecord, "\n")| && OrganismLine(SplitOn(gbRecord, "\n")[j])
    requires forall k :: 0 <= k < j ==> !OrganismLine(SplitOn(gbRecord, "\n")[k])
    ensures CanonicalNameOf(gbRecord, organismName) == AfterOrganism(SplitOn(gbRecord, "\n")[j])
  {
    var lines := SplitOn(gbRecord, "\n");
    FirstWhereMeaning(lines, OrganismLine, 0);
    var r := FirstWhere(lines, OrganismLine, 0);
    assert r.Some? && r.value <= j;
  }

  /** A line of the form "  ORGANISM  Escherichia coli" names the organism
      by what follows the marker, trimmed. */
  lemma OrganismLineName(ws: string, rest: string)
    requires AllSpaces(ws) && !Contains(rest, Organism)
    ensures OrganismLine(ws + Organism + rest)
    ensures AfterOrganism(ws + Organism + rest) == Strip(rest)
  {
    var line := ws + Organism + rest;
    assert line == ws + (Organism + rest);
    StripTrims(line);
    TrimLeftSpaces(ws, Organism + rest);
    TrimRightKeepsPrefix(Organism, rest);
    SplitAfterSpaces(ws, Organism, rest);
    SplitWithout(rest, Organism);
  }

  // ---------------------------------------------------------------------------
  // __filter_blast_results
  // ---------------------------------------------------------------------------

  /** `" ".join(title.split()[:2])` when the title has two words. */
  function SpeciesOf(title: string): Option<string> {
    var parts := Words(title);
    if |parts| >= 2 then Some(parts[0] + " " + parts[1]) else None
  }

  /** A title starting with two words names the species by those two words. */
  lemma SpeciesOfWords(w1: string, w2: string, rest: string)
    requires w1 != [] && forall i :: 0 <= i < |w1| ==> !IsSpace(w1[i])
    requires w2 != [] && forall i :: 0 <= i < |w2| ==> !IsSpace(w2[i])
    requires rest == [] || IsSpace(rest[0])
    ensures SpeciesOf(w1 + " " + w2 + rest) == Some(w1 + " " + w2)
  {
    assert w1 + " " + w2 + rest == w1 + (" " + (w2 + rest));
    WordsCons(w1, " " + (w2 + rest));
    WordsAfterSpace(' ', w2 + rest);
    assert " " + (w2 + rest) == [' '] + (w2 + rest);
    WordsCons(w2, rest);
  }

  /** A species name has no whitespace at either end. */
  lemma SpeciesOfStripped(title: string)
    ensures SpeciesOf(title).Some? ==> SpeciesOf(title).value != [] && Stripped(SpeciesOf(title).value)
  {
    var parts := Words(title);
    WordsShape(title);
    if |parts| >= 2 {
      assert parts[0] in parts && parts[1] in parts;
      var s := parts[0] + " " + parts[1];
      assert s[0] == parts[0][0];
      assert s[|s| - 1] == parts[1][|parts[1]| - 1];
    }
  }

  /** `(hsp.identities / hsp.align_length) * 100` */
  function Identity(h: Hsp): real
    requires h.alignLength != 0
  {
    (h.identities as real / h.alignLength as real) * 100.0
  }

  /** An alignment the loop fails on: no HSP, or an HSP of length zero. */
  predicate Broken(a: Alignment) {
    a.hsps == [] || a.hsps[0].alignLength == 0
  }

  /** The record stored for a species from its alignment's first HSP. */
  function HitOf(a: Alignment, species: string): SpeciesHit
    requires !Broken(a)
  {
    var h := a.hsps[0];
    SpeciesHit(species, a.hitDef, h.score, Identity(h), h.alignLength)
  }

  /** `unique_species.get(species)` */
  function FindHit(hits: seq<SpeciesHit>, species: string): Option<SpeciesHit> {
    if hits == [] then None
    else if hits[0].species == species then Some(hits[0])
    else FindHit(hits[1..], species)
  }

  /** The dictionary holds a species exactly when one of its entries has it. */
  lemma {:induction false} FindHitMeaning(hits: seq<SpeciesHit>, species: string)
    ensures FindHit(hits, species).None? <==> forall h :: h in hits ==> h.species != species
    ensures FindHit(hits, species).Some? ==>
      FindHit(hits, species).value in hits && FindHit(hits, species).value.species == species
  {
    if hits != [] && hits[0].species != species {
      FindHitMeaning(hits[1..], species);
      assert forall h :: h in hits ==> h == hits[0] || h in hits[1..];
    }
  }

  /** A new last entry is found only when no earlier one has its species. */
  lemma {:induction false} FindHitSnoc(hits: seq<SpeciesHit>, h: SpeciesHit, species: string)
    ensures FindHit(hits, species).Some? ==> FindHit(hits + [h], species) == FindHit(hits, species)
    ensures FindHit(hits, species).None? && h.species == species ==> FindHit(hits + [h], species) == Some(h)
    ensures FindHit(hits, species).None? && h.species != species ==> FindHit(hits + [h], species).None?
  {
    if hits == [] {
      assert hits + [h] == [h];
    } else {
      assert (hits + [h])[1..] == hits[1..] + [h];
      FindHitSnoc(hits[1..], h, species);
    }
  }

  /** One iteration of the loop over the alignments. */
  function HitStep(hits: seq<SpeciesHit>, a: Alignment, exclude: string): Result<seq<SpeciesHit>, BlastError> {
    if a.hsps == [] then Failure(NoHsp)
    else if a.hsps[0].alignLength == 0 then Failure(ZeroAlignLength)
    else
      match SpeciesOf(a.hitDef)
      case None => Success(hits)
      case Some(species) =>
        if Lower(species) == Lower(exclude) || FindHit(hits, species).Some? then Success(hits)
        else Success(hits + [HitOf(a, species)])
  }

  /** The dictionary after the first `n` alignments, in insertion order. */
  function FilteredHits(alignments: seq<Alignment>, exclude: string, n: nat): Result<seq<SpeciesHit>, BlastError>
    requires n <= |alignments|
  {
    if n == 0 then Success([])
    else
      match FilteredHits(alignments, exclude, n - 1)
      case Failure(e) => Failure(e)
      case Success(hits) => HitStep(hits, alignments[n - 1], exclude)
  }

  lemma {:induction false} FilteredFailureSticks(alignments: seq<Alignment>, exclude: string, i: nat, n: nat)
    requires i <= n <= |alignments|
    requires FilteredHits(alignments, exclude, i).Failure?
    ensures FilteredHits(alignments, exclude, n) == FilteredHits(alignments, exclude, i)
    decreases n - i
  {
    if i < n {
      FilteredFailureSticks(alignments, exclude, i, n - 1);
    }
  }

  /** `__filter_blast_results` */
  method FilterBlastResults(alignments: seq<Alignment>, exclude: string)
    returns (res: Result<seq<SpeciesHit>, BlastError>)
    ensures res == FilteredHits(alignments, exclude, |alignments|)
  {
    var uniqueSpecies: seq<SpeciesHit> := [];
    var excludeLower := Lower(exclude);
    for i := 0 to |alignments|
      invariant FilteredHits(alignments, exclude, i) == Success(uniqueSpecies)
    {
      var alignment := alignments[i];
      var title := alignment.hitDef;
      if alignment.hsps == [] {
        FilteredFailureSticks(alignments, exclude, i + 1, |alignments|);
        return Failure(NoHsp);
      }
      var hsp := alignment.hsps[0];
      if hsp.alignLength == 0 {
        FilteredFailureSticks(alignments, exclude, i + 1, |alignments|);
        return Failure(ZeroAlignLength);
      }
      var identity := Identity(hsp);
      var score := hsp.score;
      var parts := Words(title);
      if |parts| < 2 {
        continue;
      }
      var speciesName := parts[0] + " " + parts[1];
      if Lower(speciesName) == excludeLower || FindHit(uniqueSpecies, speciesName).Some? {
        continue;
      }
      uniqueSpecies := uniqueSpecies + [SpeciesHit(speciesName, title, score, identity, hsp.alignLength)];
    }
    res := Success(uniqueSpecies);
  }

  /** The filter fails exactly when some alignment has no HSP or a zero
      alignment length. */
  lemma {:induction false} FilterFailure(alignments: seq<Alignment>, exclude: string, n: nat)
    requires n <= |alignments|
    ensures FilteredHits(alignments, exclude, n).Success? <==> forall j :: 0 <= j < n ==> !Broken(alignments[j])
  {
    if n > 0 {
      FilterFailure(alignments, exclude, n - 1);
    }
  }

  /** Species kept by the filter are pairwise distinct, differ from the
      excluded name ignoring case, are trimmed non-empty names, and there are
      no more of them than alignments. */
  lemma {:induction false} FilterInvariant(alignments: seq<Alignment>, exclude: string, n: nat)
    requires n <= |alignments|
    requires FilteredHits(alignments, exclude, n).Success?
    ensures var hits := FilteredHits(alignments, exclude, n).value;
      && |hits| <= n
      && (forall i, j :: 0 <= i < j < |hits| ==> hits[i].species != hits[j].species)
      && (forall h :: h in hits ==> Lower(h.species) != Lower(exclude))
      && (forall h :: h in hits ==> h.species != [] && Stripped(h.species))
  {
    if n > 0 {
      FilterInvariant(alignments, exclude, n - 1);
      var hits := FilteredHits(alignments, exclude, n - 1).value;
      var a := alignments[n - 1];
      match SpeciesOf(a.hitDef)
      case None =>
      case Some(species) =>
        if !(Lower(species) == Lower(exclude) || FindHit(hits, species).Some?) {
          FindHitMeaning(hits, species);
          SpeciesOfStripped(a.hitDef);
          var hits' := hits + [HitOf(a, species)];
          assert forall h :: h in hits' ==> h in hits || h == HitOf(a, species);
          assert forall i :: 0 <= i < |hits| ==> hits'[i] == hits[i] && hits[i] in hits;
        }
    }
  }

  /** The index of the first alignment among the first `n` whose title names
      `species`, independently of the filter. */
  function FirstHitFor(alignments: seq<Alignment>, species: string, n: nat): (r: Option<nat>)
    requires n <= |alignments|
    ensures r.Some? ==> r.value < n && SpeciesOf(alignments[r.value].hitDef) == Some(species)
  {
    if n == 0 then None
    else
      var earlier := FirstHitFor(alignments, species, n - 1);
      if earlier.Some? then earlier
      else if SpeciesOf(alignments[n - 1].hitDef) == Some(species) then Some(n - 1)
      else None
  }

  lemma {:induction false} FirstHitForMeaning(alignments: seq<Alignment>, species: string, n: nat)
    requires n <= |alignments|
    ensures FirstHitFor(alignments, species, n).None? <==>
      forall k :: 0 <= k < n ==> SpeciesOf(alignments[k].hitDef) != Some(species)
    ensures FirstHitFor(alignments, species, n).Some? ==>
      forall k :: 0 <= k < FirstHitFor(alignments, species, n).value ==> SpeciesOf(alignments[k].hitDef) != Some(species)
  {
    if n > 0 {
      FirstHitForMeaning(alignments, species, n - 1);
    }
  }

  /** One iteration adds a species to the dictionary only when it is new and
      not the excluded one. */
  lemma HitStepFind(hits: seq<SpeciesHit>, a: Alignment, exclude: string, species: string)
    requires !Broken(a)
    ensures HitStep(hits, a, exclude).Success?
    ensures FindHit(HitStep(hits, a, exclude).value, species) ==
      if FindHit(hits, species).Some? then FindHit(hits, species)
      else if SpeciesOf(a.hitDef) == Some(species) && Lower(species) != Lower(exclude) then Some(HitOf(a, species))
      else None
  {
    match SpeciesOf(a.hitDef)
    case None =>
    case Some(s) =>
      if !(Lower(s) == Lower(exclude) || FindHit(hits, s).Some?) {
        FindHitSnoc(hits, HitOf(a, s), species);
      }
  }

  /** For each species the dictionary holds the record of the first
      alignment naming it, unless the species is the excluded one. */
  lemma {:induction false} FirstAlignmentWins(alignments: seq<Alignment>, exclude: string, n: nat, species: string)
    requires n <= |alignments|
    requires forall j :: 0 <= j < n ==> !Broken(alignments[j])
    ensures FilteredHits(alignments, exclude, n).Success?
    ensures var first := FirstHitFor(alignments, species, n);
      FindHit(FilteredHits(alignments, exclude, n).value, species) ==
        if Lower(species) == Lower(exclude) || first.None? then None
        else Some(HitOf(alignments[first.value], species))
  {
    if n > 0 {
      FirstAlignmentWins(alignments, exclude, n - 1, species);
      HitStepFind(FilteredHits(alignments, exclude, n - 1).value, alignments[n - 1], exclude, species);
    }
  }

  // ---------------------------------------------------------------------------
  // __sort_blast_results
  // ---------------------------------------------------------------------------

  /** `key=identity, reverse=True` as a comparison: higher identity first. */
  predicate ByIdentityDesc(a: SpeciesHit, b: SpeciesHit) {
    a.identity >= b.identity
  }

  lemma ByIdentityDescPreorder()
    ensures TotalPreorder(ByIdentityDesc)
  {
  }

  /** The keys of the entries, in order. */
  function SpeciesNames(hits: seq<SpeciesHit>): (names: seq<string>)
    ensures |names| == |hits|
  {
    if hits == [] then [] else [hits[0].species] + SpeciesNames(hits[1..])
  }

  lemma {:induction false} SpeciesNamesAt(hits: seq<SpeciesHit>)
    ensures forall i :: 0 <= i < |hits| ==> SpeciesNames(hits)[i] == hits[i].species
  {
    if hits != [] {
      SpeciesNamesAt(hits[1..]);
    }
  }

  /** Inserting an entry adds its key to the keys. */
  lemma {:induction false} SpeciesNamesInsert(x: SpeciesHit, s: seq<SpeciesHit>)
    ensures multiset(SpeciesNames(Insert(x, s, ByIdentityDesc))) == multiset(SpeciesNames(s)) + multiset{x.species}
  {
    if s != [] && !ByIdentityDesc(x, s[0]) {
      SpeciesNamesInsert(x, s[1..]);
    }
  }

  /** Sorting the entries rearranges their keys. */
  lemma {:induction false} SpeciesNamesSort(s: seq<SpeciesHit>)
    ensures multiset(SpeciesNames(Sort(s, ByIdentityDesc))) == multiset(SpeciesNames(s))
  {
    if s != [] {
      SpeciesNamesSort(s[1..]);
      SpeciesNamesInsert(s[0], Sort(s[1..], ByIdentityDesc));
    }
  }

  /** `__sort_blast_results`: the keys ordered by decreasing identity. */
  function SortedSpecies(hits: seq<SpeciesHit>): seq<string> {
    SpeciesNames(Sort(hits, ByIdentityDesc))
  }

  /** The sort returns the keys of a rearrangement of the entries whose
      identities do not increase, and the keys themselves are rearranged. */
  lemma SortedSpeciesMeaning(hits: seq<SpeciesHit>)
    ensures var sorted := Sort(hits, ByIdentityDesc);
      && SortedSpecies(hits) == SpeciesNames(sorted)
      && multiset(sorted) == multiset(hits)
      && (forall i, j :: 0 <= i < j < |sorted| ==> sorted[i].identity >= sorted[j].identity)
      && multiset(SortedSpecies(hits)) == multiset(SpeciesNames(hits))
  {
    ByIdentityDescPreorder();
    SortSorted(hits, ByIdentityDesc);
    SpeciesNamesSort(hits);
  }

  /** Entries of equal identity keep their dictionary order (Python's sort is
      stable, also with `reverse=True`). */
  lemma SortedSpeciesStable(hits: seq<SpeciesHit>, k: SpeciesHit)
    ensures SameKey(Sort(hits, ByIdentityDesc), ByIdentityDesc, k) == SameKey(hits, ByIdentityDesc, k)
  {
    ByIdentityDescPreorder();
    SortStable(hits, ByIdentityDesc, k);
  }

  // ---------------------------------------------------------------------------
  // __filter_species and the top-ten cut
  // ---------------------------------------------------------------------------

  /** The name test of `__filter_species`. */
  predicate NamedSpecies(species: string) {
    !Contains(species, "Uncultured") && !EndsWith(species, "sp.") && !Contains(species, " sp.")
  }

  /** The names among the first `n` that pass the test, in order. */
  function KeptSpecies(names: seq<string>, n: nat): seq<string>
    requires n <= |names|
  {
    if n == 0 then []
    else KeptSpecies(names, n - 1) + (if NamedSpecies(names[n - 1]) then [names[n - 1]] else [])
  }

  /** `__filter_species` */
  method FilterSpecies(uniqueSpecies: seq<string>) returns (filteredSpecies: seq<string>)
    ensures filteredSpecies == KeptSpecies(uniqueSpecies, |uniqueSpecies|)
  {
    filteredSpecies := [];
    for i := 0 to |uniqueSpecies|
      invariant filteredSpecies == KeptSpecies(uniqueSpecies, i)
    {
      var species := uniqueSpecies[i];
      if Contains(species, "Uncultured") {
        continue;
      }
      if EndsWith(species, "sp.") {
        continue;
      }
      if Contains(species, " sp.") {
        continue;
      }
      filteredSpecies := filteredSpecies + [species];
    }
  }

  /** A name is kept exactly when it is among the input names and passes the
      test; no more names come out than go in. */
  lemma {:induction false} KeptSpeciesMeaning(names: seq<string>, n: nat)
    requires n <= |names|
    ensures |KeptSpecies(names, n)| <= n
    ensures forall x :: x in KeptSpecies(names, n) <==> x in names[..n] && NamedSpecies(x)
  {
    if n > 0 {
      KeptSpeciesMeaning(names, n - 1);
      assert names[..n] == names[..n - 1] + [names[n - 1]];
    }
  }

  /** Names passing the test come out in the order they went in. */
  lemma {:induction false} KeptSpeciesOfNamed(names: seq<string>, n: nat)
    requires n <= |names|
    requires forall x :: x in names ==> NamedSpecies(x)
    ensures KeptSpecies(names, n) == names[..n]
  {
    if n > 0 {
      KeptSpeciesOfNamed(names, n - 1);
      assert names[n - 1] in names;
      assert names[..n] == names[..n - 1] + [names[n - 1]];
    }
  }

  /** The kept names are the passing names in their input order: the k-th
      kept name is the input name at the k-th passing index, and those
      indices ascend. */
  lemma {:induction false} KeptSpeciesOrder(names: seq<string>, n: nat)
    requires n <= |names|
    ensures var idx := IndicesWhere(names, NamedSpecies, n);
      && Increasing(idx)
      && |KeptSpecies(names, n)| == |idx|
      && forall k :: 0 <= k < |idx| ==> idx[k] < n && KeptSpecies(names, n)[k] == names[idx[k]]
  {
    IndicesWhereMeaning(names, NamedSpecies, n);
    if n > 0 {
      KeptSpeciesOrder(names, n - 1);
    }
  }

  /** `filtered[:10] if len(filtered) > 10 else filtered` */
  function TopTen(filtered: seq<string>): (top: seq<string>)
    ensures |top| == (if |filtered| > 10 then 10 else |filtered|)
    ensures top == filtered[..|top|]
  {
    if |filtered| > 10 then filtered[..10] else filtered
  }

  // ---------------------------------------------------------------------------
  // get_top_10_related_organisms
  // ---------------------------------------------------------------------------

  /** The cache-hit parse: the stored string split on "," and each piece
      trimmed. */
  function SplitTrimmed(stored: string): (names: seq<string>)
    ensures |names| == |SplitOn(stored, ",")|
  {
    var pieces := SplitOn(stored, ",");
    seq(|pieces|, i requires 0 <= i < |pieces| => Strip(pieces[i]))
  }

  /** What a cache miss computes, from the GenBank record (or the failure of
      fetching it) and the BLAST search as a function of the excluded name. */
  function RelatedFor(genBank: Result<string, BlastError>, blast: string -> Result<seq<Alignment>, BlastError>,
                      organismName: string): Result<seq<string>, BlastError>
  {
    match genBank
    case Failure(e) => Failure(e)
    case Success(gbRecord) =>
      var canonical := CanonicalNameOf(gbRecord, organismName);
      match blast(canonical)
      case Failure(e) => Failure(e)
      case Success(alignments) =>
        match FilteredHits(alignments, canonical, |alignments|)
        case Failure(e) => Failure(e)
        case Success(hits) => Success(RankedSpecies(hits))
  }

  /** Sort, name filter and top-ten cut applied to the filtered hits. */
  function RankedSpecies(hits: seq<SpeciesHit>): seq<string> {
    var sorted := SortedSpecies(hits);
    TopTen(KeptSpecies(sorted, |sorted|))
  }

  /** `get_top_10_related_organisms` against the cache table: a hit answers
      from the stored string and leaves the table alone; a miss runs the
      pipeline and stores the comma-joined answer only when it is non-empty. */
  method GetTop10RelatedOrganisms(store: RelatedOrganismsStore, organismName: string,
                                  genBank: Result<string, BlastError>,
                                  blast: string -> Result<seq<Alignment>, BlastError>)
    returns (res: Result<seq<string>, BlastError>)
    modifies store
    ensures LookupOrganism(old(store.entries), organismName).Some? ==>
      && res == Success(SplitTrimmed(LookupOrganism(old(store.entries), organismName).value))
      && store.entries == old(store.entries)
    ensures LookupOrganism(old(store.entries), organismName).None? ==>
      && res == RelatedFor(genBank, blast, organismName)
      && store.entries == if res.Success? && res.value != []
                          then old(store.entries)[NormalKey(organismName) := Join(",", res.value)]
                          else old(store.entries)
  {
    LowerIdempotent(organismName);
    var cachedEntry := store.GetByOrganism(Lower(organismName));
    if cachedEntry.Some? {
      res := Success(SplitTrimmed(cachedEntry.value));
      return;
    }
    if genBank.Failure? {
      return Failure(genBank.error);
    }
    var canonicalName := CanonicalName(genBank.value, organismName);
    var blastRecord := blast(canonicalName);
    if blastRecord.Failure? {
      return Failure(blastRecord.error);
    }
    var uniqueSpecies := FilterBlastResults(blastRecord.value, canonicalName);
    if uniqueSpecies.Failure? {
      return Failure(uniqueSpecies.error);
    }
    var sortedSpecies := SortedSpecies(uniqueSpecies.value);
    var filteredSpecies := FilterSpecies(sortedSpecies);
    var result := if |filteredSpecies| > 10 then filteredSpecies[..10] else filteredSpecies;
    if result != [] {
      NormalKeyIdempotent(organismName);
      var _ := store.Create(NormalKey(organismName), Join(",", result));
    }
    res := Success(result);
  }

  /** Ranking keeps only names of the hits it is given. */
  lemma RankedFromHits(hits: seq<SpeciesHit>)
    ensures forall s :: s in RankedSpecies(hits) ==> exists h :: h in hits && h.species == s
  {
    var sorted := Sort(hits, ByIdentityDesc);
    var names := SortedSpecies(hits);
    SpeciesNamesAt(sorted);
    forall s | s in names ensures exists h :: h in hits && h.species == s {
      var i :| 0 <= i < |names| && names[i] == s;
      assert sorted[i] in multiset(hits);
    }
    KeptSpeciesMeaning(names, |names|);
    assert names[..|names|] == names;
    var kept := KeptSpecies(names, |names|);
    assert forall s :: s in TopTen(kept) ==> s in kept;
  }

  /** With one entry per species, as the filter guarantees, a species'
      entry is the one that carries its name. */
  lemma FindHitDistinct(hits: seq<SpeciesHit>, h: SpeciesHit)
    requires forall i, j :: 0 <= i < j < |hits| ==> hits[i].species != hits[j].species
    requires h in hits
    ensures FindHit(hits, h.species) == Some(h)
  {
    FindHitMeaning(hits, h.species);
    var v := FindHit(hits, h.species).value;
    var a :| 0 <= a < |hits| && hits[a] == v;
    var b :| 0 <= b < |hits| && hits[b] == h;
    assert a == b;
  }

  /** The i-th ranked species is the species of the sorted entry at the i-th
      index kept by the name filter, and those indices ascend. */
  lemma RankedIndices(hits: seq<SpeciesHit>)
    ensures var sorted := Sort(hits, ByIdentityDesc);
      var idx := IndicesWhere(SortedSpecies(hits), NamedSpecies, |sorted|);
      && Increasing(idx)
      && |RankedSpecies(hits)| <= |idx|
      && forall i :: 0 <= i < |RankedSpecies(hits)| ==>
        idx[i] < |sorted| && RankedSpecies(hits)[i] == sorted[idx[i]].species
  {
    var sorted := Sort(hits, ByIdentityDesc);
    var names := SortedSpecies(hits);
    SpeciesNamesAt(sorted);
    KeptSpeciesOrder(names, |names|);
  }

  /** The ranking lists species of the entries in non-increasing identity:
      each ranked species has an entry, and an earlier one's identity is at
      least a later one's. */
  lemma RankedByIdentity(hits: seq<SpeciesHit>)
    requires forall i, j :: 0 <= i < j < |hits| ==> hits[i].species != hits[j].species
    ensures forall i, k :: 0 <= i < k < |RankedSpecies(hits)| ==>
      && FindHit(hits, RankedSpecies(hits)[i]).Some?
      && FindHit(hits, RankedSpecies(hits)[k]).Some?
      && FindHit(hits, RankedSpecies(hits)[i]).value.identity >= FindHit(hits, RankedSpecies(hits)[k]).value.identity
  {
    var sorted := Sort(hits, ByIdentityDesc);
    var idx := IndicesWhere(SortedSpecies(hits), NamedSpecies, |sorted|);
    var top := RankedSpecies(hits);
    ByIdentityDescPreorder();
    SortSorted(hits, ByIdentityDesc);
    RankedIndices(hits);
    forall i | 0 <= i < |top|
      ensures FindHit(hits, top[i]) == Some(sorted[idx[i]])
    {
      assert sorted[idx[i]] in multiset(hits);
      FindHitDistinct(hits, sorted[idx[i]]);
    }
  }

  /** Every name in a computed answer is a trimmed, non-empty species name. */
  lemma RelatedStripped(genBank: Result<string, BlastError>, blast: string -> Result<seq<Alignment>, BlastError>,
                        organismName: string)
    requires RelatedFor(genBank, blast, organismName).Success?
    ensures forall s :: s in RelatedFor(genBank, blast, organismName).value ==> s != [] && Stripped(s)
  {
    var canonical := CanonicalNameOf(genBank.value, organismName);
    var alignments := blast(canonical).value;
    FilterInvariant(alignments, canonical, |alignments|);
    RankedFromHits(FilteredHits(alignments, canonical, |alignments|).value);
  }

  /** A non-empty list of trimmed names without commas survives being stored
      comma-joined and read back on a later hit. */
  lemma CachedListRoundTrip(names: seq<string>)
    requires names != []
    requires forall s :: s in names ==> ',' !in s && Stripped(s)
    ensures SplitTrimmed(Join(",", names)) == names
  {
    SplitJoin(names, ',');
    forall i | 0 <= i < |names|
      ensures Strip(names[i]) == names[i]
    {
      assert names[i] in names;
      StripOfStripped(names[i]);
    }
  }

  /** A character that `sub` does not hold cannot take part in an occurrence
      of it at the end of `s + [c]`. */
  lemma ContainsSnoc(s: string, c: char, sub: string)
    requires c !in sub
    requires Contains(s + [c], sub)
    ensures Contains(s, sub)
  {
    ContainsAt(s + [c], sub);
    ContainsAt(s, sub);
    var i :| OccursAt(s + [c], sub, i);
    if sub == [] {
      assert OccursAt(s, sub, 0);
    } else {
      var last := i + |sub| - 1;
      assert (s + [c])[last] == sub[|sub| - 1];
      assert sub[|sub| - 1] in sub;
      assert last != |s|;
      assert (s + [c])[i..i + |sub|] == s[i..i + |sub|];
      assert OccursAt(s, sub, i);
    }
  }

  /** A title whose second word ends in a comma names the species with it. */
  lemma CommaTitle(genus: string, epithet: string, rest: string)
    requires genus != [] && forall i :: 0 <= i < |genus| ==> !IsSpace(genus[i])
    requires epithet != [] && forall i :: 0 <= i < |epithet| ==> !IsSpace(epithet[i])
    requires rest == [] || IsSpace(rest[0])
    ensures SpeciesOf(genus + " " + epithet + "," + rest) == Some(genus + " " + epithet + ",")
  {
    var word := epithet + ",";
    SpeciesOfWords(genus, word, rest);
    assert genus + " " + word + rest == genus + " " + epithet + "," + rest;
    assert genus + " " + word == genus + " " + epithet + ",";
  }

  /** A trailing comma does not make a passing name fail the name tests. */
  lemma CommaNamed(named: string)
    requires NamedSpecies(named)
    ensures NamedSpecies(named + ",")
  {
    if Contains(named + ",", "Uncultured") {
      ContainsSnoc(named, ',', "Uncultured");
    }
    if Contains(named + ",", " sp.") {
      ContainsSnoc(named, ',', " sp.");
    }
    assert (named + ",")[|named + ","| - 1] == ',';
  }

  /** Two comma-free names around a doubled comma split into three pieces. */
  lemma SplitDoubledComma(named: string, other: string)
    requires ',' !in named && ',' !in other
    ensures SplitOn(named + [','] + ([','] + other), ",") == [named, [], other]
  {
    SplitFreePrefix(named, ',', [','] + other);
    SplitFreePrefix([], ',', other);
    SplitFreePrefix(other, ',', []);
    assert [] + [','] + other == [','] + other;
  }

  /** A cached list whose first name ends in a comma reads back with an
      extra, empty piece after that name. */
  lemma CommaListSplits(named: string, other: string)
    requires Stripped(named) && ',' !in named
    requires Stripped(other) && ',' !in other
    ensures SplitTrimmed(Join(",", [named + ",", other])) == [named, "", other]
  {
    var joined := Join(",", [named + ",", other]);
    assert joined == named + [','] + ([','] + other) by {
      assert [named + ",", other][1..] == [other];
    }
    SplitDoubledComma(named, other);
    StripOfStripped(named);
    StripOfStripped(other);
  }

  /** The round trip needs comma-free names, yet a species can carry a comma.
      A title whose second word ends in one names the species with the comma;
      when the two words pass the name tests, so does that species; and a
      cached list holding it reads back with an extra, empty piece. */
  lemma CommaInSpecies(genus: string, epithet: string, rest: string, other: string)
    requires genus != [] && forall i :: 0 <= i < |genus| ==> !IsSpace(genus[i]) && genus[i] != ','
    requires epithet != [] && forall i :: 0 <= i < |epithet| ==> !IsSpace(epithet[i]) && epithet[i] != ','
    requires rest == [] || IsSpace(rest[0])
    requires NamedSpecies(genus + " " + epithet)
    requires Stripped(other) && ',' !in other
    ensures var named := genus + " " + epithet;
      && SpeciesOf(named + "," + rest) == Some(named + ",")
      && NamedSpecies(named + ",")
      && SplitTrimmed(Join(",", [named + ",", other])) == [named, "", other]
  {
    var named := genus + " " + epithet;
    CommaTitle(genus, epithet, rest);
    CommaNamed(named);
    assert ',' !in named by {
      forall k | 0 <= k < |named|
        ensures named[k] != ','
      {
        if k < |genus| {
          assert named[k] == genus[k];
        } else if k > |genus| {
          assert named[k] == epithet[k - |genus| - 1];
        }
      }
    }
    assert Stripped(named) by {
      assert named[0] == genus[0];
      assert named[|named| - 1] == epithet[|epithet| - 1];
    }
    CommaListSplits(named, other);
  }

  /** After a miss that stores a non-empty answer without commas, the next
      call for the same organism, under any spelling with the same normal
      form, is a hit that returns the same list. */
  lemma MissThenHit(entries: map<string, string>, genBank: Result<string, BlastError>,
                    blast: string -> Result<seq<Alignment>, BlastError>, organismName: string, query: string)
    requires RelatedFor(genBank, blast, organismName).Success?
    requires RelatedFor(genBank, blast, organismName).value != []
    requires forall s :: s in RelatedFor(genBank, blast, organismName).value ==> ',' !in s
    requires NormalKey(query) == NormalKey(organismName)
    ensures var result := RelatedFor(genBank, blast, organismName).value;
      var stored := entries[NormalKey(organismName) := Join(",", result)];
      && LookupOrganism(stored, query) == Some(Join(",", result))
      && SplitTrimmed(LookupOrganism(stored, query).value) == result
  {
    RelatedStripped(genBank, blast, organismName);
    CachedListRoundTrip(RelatedFor(genBank, blast, organismName).value);
  }
}
