/** The repair of requirement citations and of the links from source sections back to requirements.

Requirements and sections are changed in place: broad citations are replaced, contracted
requirements receive the citation of their section where none overlaps, and then every section's
list of requirements is recomputed from overlap alone.
 */
module Traceability {
  import opened Wrappers
  import opened Ordering
  import opened Citations

  datatype Disposition = UserIntentContext | RequirementLinked | Other(text: string)

  datatype Section = Section(sectionId: string, reference: string, requirementIds: seq<string>, disposition: Disposition)

  /** Citations by requirement id. */
  type References = map<string, seq<string>>

  /** For some requirements, what each over-broad citation is replaced by. */
  type Repairs = map<string, map<string, seq<string>>>

  datatype Contract = Contract(sectionId: string, requirementIds: seq<string>)

  datatype KeyError = UnknownSection(id: string) | UnknownRequirement(id: string)

  //
  // Replacing citations.
  //

  /** `repairs.get(source, [source])`. */
  function Replacement(table: map<string, seq<string>>, source: string): seq<string> {
    if source in table then table[source] else [source]
  }

  function Replaced(table: map<string, seq<string>>, sources: seq<string>): seq<string> {
    if sources == [] then [] else Replaced(table, sources[..|sources|-1]) + Replacement(table, sources[|sources|-1])
  }

  function RepairedOne(repairs: Repairs, id: string, sources: seq<string>): seq<string> {
    if id !in repairs || repairs[id] == map[] then sources else Dedupe(Replaced(repairs[id], sources))
  }

  lemma {:induction false} ReplacedMembers(table: map<string, seq<string>>, sources: seq<string>, x: string)
    ensures x in Replaced(table, sources) <==> exists s :: s in sources && x in Replacement(table, s)
  {
    if sources != [] {
      var front, last := sources[..|sources|-1], sources[|sources|-1];
      ReplacedMembers(table, front, x);
      assert forall s :: s in sources <==> s in front || s == last;
    }
  }

  /** After a repair a citation stands exactly when it replaces, or is, one that stood before; no
      over-broad citation survives unless some replacement names it, and nothing stands twice. A
      requirement without repairs keeps its citations. */
  lemma RepairMeans(repairs: Repairs, id: string, sources: seq<string>, x: string)
    ensures id !in repairs || repairs[id] == map[] ==> RepairedOne(repairs, id, sources) == sources
    ensures id in repairs && repairs[id] != map[] ==>
              && Distinct(RepairedOne(repairs, id, sources))
              && (x in RepairedOne(repairs, id, sources) <==>
                    exists s :: s in sources && if s in repairs[id] then x in repairs[id][s] else x == s)
  {
    if id in repairs && repairs[id] != map[] {
      DedupeSpec(Replaced(repairs[id], sources));
      ReplacedMembers(repairs[id], sources, x);
      assert forall s :: x in Replacement(repairs[id], s) <==> if s in repairs[id] then x in repairs[id][s] else x == s;
    }
  }

  function RepairedAll(repairs: Repairs, refs: References): References {
    map id | id in refs :: RepairedOne(repairs, id, refs[id])
  }

  //
  // Links.
  //

  /** Some citation of the list overlaps `reference`. */
  predicate Linked(sources: seq<string>, reference: string) {
    exists s :: s in sources && ScriptOverlaps(s, reference)
  }

  predicate LinkedId(refs: References, id: string, reference: string) {
    id in refs && Linked(refs[id], reference)
  }

  function LinkedIds(refs: References, reference: string): seq<string> {
    Ascending(set id | id in refs && Linked(refs[id], reference))
  }

  /** Citations are only ever appended. */
  ghost predicate Extends(before: References, after: References) {
    before.Keys == after.Keys && forall id :: id in before ==> before[id] <= after[id]
  }

  lemma ExtendsTransitive(a: References, b: References, c: References)
    requires Extends(a, b) && Extends(b, c)
    ensures Extends(a, c)
  {}

  lemma ExtendsKeepsLinks(a: References, b: References, id: string, reference: string)
    requires Extends(a, b) && LinkedId(a, id, reference)
    ensures LinkedId(b, id, reference)
  {
    var s :| s in a[id] && ScriptOverlaps(s, reference);
    assert s in b[id];
  }

  /** `reference` is appended to the citations of `id` unless one of them overlaps it. */
  function WithLink(refs: References, id: string, reference: string): References
    requires id in refs
  {
    if Linked(refs[id], reference) then refs else refs[id := refs[id] + [reference]]
  }

  lemma WithLinkSpec(refs: References, id: string, reference: string)
    requires id in refs
    ensures Extends(refs, WithLink(refs, id, reference))
    ensures LinkedId(WithLink(refs, id, reference), id, reference) <==>
              LinkedId(refs, id, reference) || ScriptOverlaps(reference, reference)
  {
    var after := WithLink(refs, id, reference);
    assert forall s :: s in after[id] ==> s in refs[id] || s == reference;
    if !Linked(refs[id], reference) { assert reference in after[id]; }
  }

  /** The position of the section a contract names: the last one with that id. */
  function Find(sections: seq<Section>, id: string): Option<nat> {
    if sections == [] then None
    else if sections[|sections|-1].sectionId == id then Some(|sections| - 1)
    else Find(sections[..|sections|-1], id)
  }

  /** The last section with this id, the one it stands for, is at `k`. */
  ghost predicate IsSection(sections: seq<Section>, id: string, k: int) {
    0 <= k < |sections| && sections[k].sectionId == id && forall j :: k < j < |sections| ==> sections[j].sectionId != id
  }

  lemma {:induction false} FindSpec(sections: seq<Section>, id: string)
    ensures Find(sections, id).None? ==> forall k :: !IsSection(sections, id, k)
    ensures forall k :: IsSection(sections, id, k) <==> Find(sections, id).Some? && k == Find(sections, id).value
  {
    if sections != [] {
      var n := |sections| - 1;
      FindSpec(sections[..n], id);
      if sections[n].sectionId == id {
        assert IsSection(sections, id, n);
      } else {
        forall k ensures IsSection(sections, id, k) <==> IsSection(sections[..n], id, k) {
          assert forall j :: 0 <= j < n ==> sections[j] == sections[..n][j];
        }
      }
    }
  }

  /** The requirement cites the reference itself, or something that overlaps it. */
  ghost predicate Reached(refs: References, id: string, reference: string) {
    id in refs && (reference in refs[id] || Linked(refs[id], reference))
  }

  /** The contract's section is there, and every requirement of the contract has reached it. */
  ghost predicate Honoured(refs: References, sections: seq<Section>, c: Contract) {
    && (exists k :: IsSection(sections, c.sectionId, k))
    && forall k, id :: IsSection(sections, c.sectionId, k) && id in c.requirementIds ==> Reached(refs, id, sections[k].reference)
  }

  /** Some contract names the requirement for a section cited by `reference`. */
  ghost predicate Contracted(sections: seq<Section>, contracts: seq<Contract>, id: string, reference: string) {
    exists c, k :: c in contracts && id in c.requirementIds && IsSection(sections, c.sectionId, k) && sections[k].reference == reference
  }

  /** `cs` is `base` followed by citations of contracting sections, none of which overlapped a citation
      before it. */
  ghost predicate Grown(sections: seq<Section>, contracts: seq<Contract>, id: string, base: seq<string>, cs: seq<string>) {
    && base <= cs
    && forall k :: |base| <= k < |cs| ==>
         Contracted(sections, contracts, id, cs[k]) && forall j :: 0 <= j < k ==> !ScriptOverlaps(cs[j], cs[k])
  }

  ghost predicate AllGrown(sections: seq<Section>, contracts: seq<Contract>, base: References, refs: References) {
    base.Keys == refs.Keys && forall id :: id in base ==> Grown(sections, contracts, id, base[id], refs[id])
  }

  lemma GrownSnoc(sections: seq<Section>, contracts: seq<Contract>, id: string, base: seq<string>, cs: seq<string>, reference: string)
    requires Grown(sections, contracts, id, base, cs)
    requires Contracted(sections, contracts, id, reference) && !Linked(cs, reference)
    ensures Grown(sections, contracts, id, base, cs + [reference])
  {
    var all := cs + [reference];
    forall k | |base| <= k < |all|
      ensures Contracted(sections, contracts, id, all[k]) && forall j :: 0 <= j < k ==> !ScriptOverlaps(all[j], all[k])
    {
      assert forall j :: 0 <= j < |cs| ==> all[j] == cs[j] && cs[j] in cs;
    }
  }

  lemma IsSectionSame(a: seq<Section>, b: seq<Section>, id: string, k: int)
    requires SameCitations(a, b)
    ensures IsSection(a, id, k) <==> IsSection(b, id, k)
  {}

  lemma ContractedSame(a: seq<Section>, b: seq<Section>, contracts: seq<Contract>, id: string, reference: string)
    requires SameCitations(a, b) && Contracted(a, contracts, id, reference)
    ensures Contracted(b, contracts, id, reference)
  {
    var c, k :| c in contracts && id in c.requirementIds && IsSection(a, c.sectionId, k) && a[k].reference == reference;
    IsSectionSame(a, b, c.sectionId, k);
  }

  lemma GrownSame(a: seq<Section>, b: seq<Section>, contracts: seq<Contract>, base: References, refs: References)
    requires SameCitations(a, b) && AllGrown(a, contracts, base, refs)
    ensures AllGrown(b, contracts, base, refs)
  {
    forall id | id in base ensures Grown(b, contracts, id, base[id], refs[id]) {
      forall k | |base[id]| <= k < |refs[id]| ensures Contracted(b, contracts, id, refs[id][k]) {
        ContractedSame(a, b, contracts, id, refs[id][k]);
      }
    }
  }

  /** A requirement has gained something only if some contract names it for a section that none of its
      citations overlapped; so one that no contract names, or that overlapped every contracting section
      already, keeps exactly its citations. */
  lemma GainedForAReason(sections: seq<Section>, contracts: seq<Contract>, id: string, base: seq<string>, cs: seq<string>)
    requires Grown(sections, contracts, id, base, cs)
    ensures cs == base || exists reference :: Contracted(sections, contracts, id, reference) && !Linked(base, reference)
  {
    if |cs| > |base| {
      var reference := cs[|base|];
      forall s | s in base ensures !ScriptOverlaps(s, reference) {
        var j :| 0 <= j < |base| && base[j] == s;
        assert cs[j] == s;
      }
      assert Contracted(sections, contracts, id, reference) && !Linked(base, reference);
    }
  }

  /** The disposition of section `i` once the contracts are marked. */
  ghost predicate Marked(sections: seq<Section>, contracts: seq<Contract>, i: int) {
    exists c :: c in contracts && IsSection(sections, c.sectionId, i)
  }

  ghost predicate SameCitations(a: seq<Section>, b: seq<Section>) {
    |a| == |b| && forall i :: 0 <= i < |a| ==> a[i].sectionId == b[i].sectionId && a[i].reference == b[i].reference
  }

  lemma {:induction false} FindSame(a: seq<Section>, b: seq<Section>, id: string)
    requires SameCitations(a, b)
    ensures Find(a, id) == Find(b, id)
  {
    if a != [] { FindSame(a[..|a|-1], b[..|b|-1], id); }
  }

  lemma ReachedStays(r1: References, r2: References, id: string, reference: string)
    requires Reached(r1, id, reference) && Extends(r1, r2)
    ensures Reached(r2, id, reference)
  {
    if Linked(r1[id], reference) { ExtendsKeepsLinks(r1, r2, id, reference); }
  }

  lemma HonouredStays(r1: References, s1: seq<Section>, r2: References, s2: seq<Section>, c: Contract)
    requires Honoured(r1, s1, c) && Extends(r1, r2) && SameCitations(s1, s2)
    ensures Honoured(r2, s2, c)
  {
    var k0 :| IsSection(s1, c.sectionId, k0);
    IsSectionSame(s1, s2, c.sectionId, k0);
    forall k, id | IsSection(s2, c.sectionId, k) && id in c.requirementIds ensures Reached(r2, id, s2[k].reference) {
      IsSectionSame(s1, s2, c.sectionId, k);
      ReachedStays(r1, r2, id, s1[k].reference);
    }
  }

  /** The reverse links of one section are exactly its overlapping requirements, and a section with
      links is not left as mere context. */
  ghost predicate Exact(refs: References, s: Section) {
    && s.requirementIds == LinkedIds(refs, s.reference)
    && (s.requirementIds != [] ==> !s.disposition.UserIntentContext?)
  }

  /** The section and every requirement the contract names are there. */
  ghost predicate Applicable(refs: References, sections: seq<Section>, c: Contract) {
    (exists s :: s in sections && s.sectionId == c.sectionId) && forall id :: id in c.requirementIds ==> id in refs
  }

  lemma ApplicableMeans(refs: References, sections: seq<Section>, c: Contract)
    ensures Applicable(refs, sections, c) <==>
              Find(sections, c.sectionId).Some? && forall id :: id in c.requirementIds ==> id in refs
  {
    FindSpec(sections, c.sectionId);
    if Find(sections, c.sectionId).Some? {
      var k := Find(sections, c.sectionId).value;
      assert IsSection(sections, c.sectionId, k) && sections[k] in sections;
    }
    if s :| s in sections && s.sectionId == c.sectionId { SomeIsLast(sections, c.sectionId, s); }
  }

  lemma {:induction false} SomeIsLast(sections: seq<Section>, id: string, s: Section)
    requires s in sections && s.sectionId == id
    ensures Find(sections, id).Some?
  {
    var n := |sections| - 1;
    if sections[n].sectionId != id {
      assert s in sections[..n];
      SomeIsLast(sections[..n], id, s);
    }
  }

  lemma ApplicableStays(r1: References, s1: seq<Section>, r2: References, s2: seq<Section>, c: Contract)
    requires r1.Keys == r2.Keys && SameCitations(s1, s2)
    ensures Applicable(r1, s1, c) <==> Applicable(r2, s2, c)
  {
    ApplicableMeans(r1, s1, c);
    ApplicableMeans(r2, s2, c);
    FindSame(s1, s2, c.sectionId);
    assert forall id :: id in r1 <==> id in r2.Keys;
  }

  ghost predicate AllApplicable(refs: References, sections: seq<Section>, contracts: seq<Contract>) {
    forall c :: c in contracts ==> Applicable(refs, sections, c)
  }

  ghost predicate AllHonoured(refs: References, sections: seq<Section>, contracts: seq<Contract>) {
    forall c :: c in contracts ==> Honoured(refs, sections, c)
  }

  /** The contracted sections are linked; every other keeps its disposition. */
  ghost predicate AllMarked(before: seq<Section>, contracts: seq<Contract>, after: seq<Section>) {
    && |before| == |after|
    && forall i :: 0 <= i < |after| ==>
         after[i].disposition == if Marked(before, contracts, i) then RequirementLinked else before[i].disposition
  }

  lemma HonouredSnoc(r1: References, s1: seq<Section>, r2: References, s2: seq<Section>, done: seq<Contract>, c: Contract)
    requires AllHonoured(r1, s1, done) && Extends(r1, r2) && SameCitations(s1, s2) && Honoured(r2, s2, c)
    ensures AllHonoured(r2, s2, done + [c])
  {
    forall x | x in done + [c] ensures Honoured(r2, s2, x) {
      if x in done { HonouredStays(r1, s1, r2, s2, x); }
    }
  }

  lemma MarkedNext(before: seq<Section>, s1: seq<Section>, s2: seq<Section>, done: seq<Contract>, c: Contract)
    requires SameCitations(before, s1) && AllMarked(before, done, s1) && |s1| == |s2|
    requires forall i :: 0 <= i < |s2| ==>
               s2[i].disposition == if IsSection(s1, c.sectionId, i) then RequirementLinked else s1[i].disposition
    ensures AllMarked(before, done + [c], s2)
  {
    forall i | 0 <= i < |s2|
      ensures s2[i].disposition == if Marked(before, done + [c], i) then RequirementLinked else before[i].disposition
    {
      IsSectionSame(before, s1, c.sectionId, i);
      MarkedSnoc(before, done, c, i);
    }
  }

  lemma MarkedSnoc(sections: seq<Section>, done: seq<Contract>, c: Contract, i: int)
    ensures Marked(sections, done + [c], i) <==> Marked(sections, done, i) || IsSection(sections, c.sectionId, i)
  {
    assert forall x :: x in done + [c] <==> x in done || x == c;
  }

  class Repository {
    var references: References
    var sections: seq<Section>

    constructor (references: References, sections: seq<Section>)
      ensures this.references == references && this.sections == sections
    {
      this.references, this.sections := references, sections;
    }

    method RepairSourceReferences(repairs: Repairs)
      modifies this`references
      ensures references == RepairedAll(repairs, old(references))
    {
      var todo := references.Keys;
      while todo != {}
        invariant references.Keys == old(references).Keys && todo <= references.Keys
        invariant forall id :: id in references ==>
                    references[id] == if id in todo then old(references)[id] else RepairedOne(repairs, id, old(references)[id])
        decreases todo
      {
        var id :| id in todo;
        var repaired := RepairOne(repairs, id, references[id]);
        references := references[id := repaired];
        todo := todo - {id};
      }
    }

    method RepairOne(repairs: Repairs, id: string, sources: seq<string>) returns (r: seq<string>)
      ensures r == RepairedOne(repairs, id, sources)
    {
      if id !in repairs || repairs[id] == map[] {
        return sources;
      }
      var repaired: seq<string> := [];
      for i := 0 to |sources|
        invariant repaired == Replaced(repairs[id], sources[..i])
      {
        assert sources[..i+1][..i] == sources[..i];
        repaired := repaired + Replacement(repairs[id], sources[i]);
      }
      assert sources[..|sources|] == sources;
      return Dedupe(repaired);
    }

    /** Links every requirement of one contract; a missing id ends the run. */
    method LinkAll(ids: seq<string>, reference: string, ghost base: References, ghost contracts: seq<Contract>)
      returns (r: Result<(), KeyError>)
      requires AllGrown(sections, contracts, base, references)
      requires forall id :: id in ids ==> Contracted(sections, contracts, id, reference)
      modifies this`references
      ensures Extends(old(references), references)
      ensures AllGrown(sections, contracts, base, references)
      ensures r.Ok? <==> forall id :: id in ids ==> id in old(references)
      ensures r.Ok? ==> forall id :: id in ids ==> Reached(references, id, reference)
    {
      for i := 0 to |ids|
        invariant Extends(old(references), references)
        invariant AllGrown(sections, contracts, base, references)
        invariant forall k :: 0 <= k < i ==> Reached(references, ids[k], reference)
      {
        assert ids[i] in ids;
        if ids[i] !in references {
          return Err(UnknownRequirement(ids[i]));
        }
        LinkOne(ids[i], reference, base, contracts, ids[..i]);
        assert forall k :: 0 <= k < i ==> ids[k] in ids[..i];
      }
      return Ok(());
    }

    /** Appends the citation unless one that is there overlaps it. */
    method LinkOne(id: string, reference: string, ghost base: References, ghost contracts: seq<Contract>, ghost reached: seq<string>)
      requires id in references && AllGrown(sections, contracts, base, references)
      requires Contracted(sections, contracts, id, reference)
      requires forall x :: x in reached ==> Reached(references, x, reference)
      modifies this`references
      ensures forall before :: Extends(before, old(references)) ==> Extends(before, references)
      ensures AllGrown(sections, contracts, base, references)
      ensures Reached(references, id, reference)
      ensures forall x :: x in reached ==> Reached(references, x, reference)
    {
      ghost var before := references;
      WithLinkSpec(references, id, reference);
      if !Linked(references[id], reference) {
        GrownSnoc(sections, contracts, id, base[id], references[id], reference);
        references := references[id := references[id] + [reference]];
      }
      assert references == WithLink(before, id, reference);
      forall x | x in reached ensures Reached(references, x, reference) { ReachedStays(before, references, x, reference); }
      forall start | Extends(start, before) ensures Extends(start, references) { ExtendsTransitive(start, before, references); }
    }

    /** One contract: link its requirements, then mark its section. */
    method ApplyContract(c: Contract, ghost base: References, ghost contracts: seq<Contract>) returns (r: Result<(), KeyError>)
      requires c in contracts && AllGrown(sections, contracts, base, references)
      modifies this
      ensures Extends(old(references), references)
      ensures AllGrown(sections, contracts, base, references)
      ensures SameCitations(old(sections), sections)
      ensures r.Ok? ==> Honoured(references, sections, c)
      ensures r.Ok? <==> Applicable(old(references), old(sections), c)
      ensures r.Ok? ==> forall i :: 0 <= i < |sections| ==>
                sections[i].disposition ==
                  if IsSection(old(sections), c.sectionId, i) then RequirementLinked else old(sections)[i].disposition
    {
      FindSpec(sections, c.sectionId);
      ApplicableMeans(references, sections, c);
      var k := Find(sections, c.sectionId);
      if k.None? {
        return Err(UnknownSection(c.sectionId));
      }
      assert IsSection(sections, c.sectionId, k.value);
      var section := sections[k.value];
      r := LinkAll(c.requirementIds, section.reference, base, contracts);
      if r.Err? {
        return;
      }
      var ids := (set id | id in section.requirementIds) + (set id | id in c.requirementIds);
      sections := sections[k.value := section.(disposition := RequirementLinked, requirementIds := Ascending(ids))];
      GrownSame(old(sections), sections, contracts, base, references);
      FindSame(old(sections), sections, c.sectionId);
      FindSpec(sections, c.sectionId);
      assert IsSection(sections, c.sectionId, k.value);
    }

    method ApplyContracts(contracts: seq<Contract>) returns (r: Result<(), KeyError>)
      modifies this
      ensures Extends(old(references), references)
      ensures AllGrown(sections, contracts, old(references), references)
      ensures SameCitations(old(sections), sections)
      ensures r.Ok? ==> AllHonoured(references, sections, contracts)
      ensures r.Ok? <==> AllApplicable(old(references), old(sections), contracts)
      ensures r.Ok? ==> AllMarked(old(sections), contracts, sections)
    {
      for n := 0 to |contracts|
        invariant Extends(old(references), references)
        invariant AllGrown(sections, contracts, old(references), references)
        invariant SameCitations(old(sections), sections)
        invariant AllApplicable(old(references), old(sections), contracts[..n])
        invariant AllHonoured(references, sections, contracts[..n])
        invariant AllMarked(old(sections), contracts[..n], sections)
      {
        ghost var refs, secs := references, sections;
        ApplicableStays(old(references), old(sections), refs, secs, contracts[n]);
        assert contracts[n] in contracts && contracts[..n+1] == contracts[..n] + [contracts[n]];
        r := ApplyContract(contracts[n], old(references), contracts);
        ExtendsTransitive(old(references), refs, references);
        if r.Err? {
          return;
        }
        HonouredSnoc(refs, secs, references, sections, contracts[..n], contracts[n]);
        MarkedNext(old(sections), secs, sections, contracts[..n], contracts[n]);
      }
      assert contracts[..|contracts|] == contracts;
      return Ok(());
    }

    /** Recomputes every reverse link from overlap alone. */
    method RecomputeLinks()
      modifies this`sections
      ensures SameCitations(old(sections), sections)
      ensures forall i :: 0 <= i < |sections| ==> Exact(references, sections[i])
      ensures forall i :: 0 <= i < |sections| ==> Promoted(old(sections)[i], sections[i])
    {
      for i := 0 to |sections|
        invariant SameCitations(old(sections), sections)
        invariant forall k :: 0 <= k < i ==> Exact(references, sections[k]) && Promoted(old(sections)[k], sections[k])
        invariant forall k :: i <= k < |sections| ==> sections[k] == old(sections)[k]
      {
        var section := sections[i];
        var linked := LinkedIds(references, section.reference);
        var disposition := section.disposition;
        if linked != [] && disposition.UserIntentContext? {
          disposition := RequirementLinked;
        }
        sections := sections[i := section.(requirementIds := linked, disposition := disposition)];
      }
    }

    /** The repair as a whole. It succeeds exactly when every contract is applicable. Then each
        requirement's citations are its repaired ones followed by those of contracting sections that
        nothing overlapped, every list is exact, and every section ends with the disposition it should. */
    method Repair(repairs: Repairs, contracts: seq<Contract>) returns (r: Result<(), KeyError>)
      modifies this
      ensures r.Ok? <==> forall c :: c in contracts ==> Applicable(old(references), old(sections), c)
      ensures r.Ok? ==>
                && Extends(RepairedAll(repairs, old(references)), references)
                && AllGrown(sections, contracts, RepairedAll(repairs, old(references)), references)
                && SameCitations(old(sections), sections)
                && (forall i :: 0 <= i < |sections| ==> Exact(references, sections[i]))
                && (forall c :: c in contracts ==> Honoured(references, sections, c))
                && (forall i :: 0 <= i < |sections| ==> Disposed(old(sections), contracts, i, sections[i]))
    {
      RepairSourceReferences(repairs);
      forall c ensures Applicable(references, sections, c) <==> Applicable(old(references), old(sections), c) {
        ApplicableStays(references, sections, old(references), old(sections), c);
      }
      r := ApplyContracts(contracts);
      if r.Err? {
        return;
      }
      ghost var secs := sections;
      RecomputeLinks();
      GrownSame(secs, sections, contracts, RepairedAll(repairs, old(references)), references);
      forall c | c in contracts ensures Honoured(references, sections, c) {
        HonouredStays(references, secs, references, sections, c);
      }
      forall i | 0 <= i < |sections| ensures Disposed(old(sections), contracts, i, sections[i]) {
        assert Promoted(secs[i], sections[i]);
      }
    }
  }

  /** A section that is mere context is promoted when it has links; nothing else changes. */
  ghost predicate Promoted(before: Section, after: Section) {
    after.disposition ==
      if before.disposition.UserIntentContext? && after.requirementIds != [] then RequirementLinked else before.disposition
  }

  /** A contracted section ends linked; any other changes its disposition only from mere context, when
      it has links. */
  ghost predicate Disposed(before: seq<Section>, contracts: seq<Contract>, i: nat, after: Section)
    requires i < |before|
  {
    if Marked(before, contracts, i) then after.disposition.RequirementLinked? else Promoted(before[i], after)
  }

  /** After the repair a section lists exactly the requirements with an overlapping citation, each
      once, in order. */
  lemma SectionListsItsRequirements(refs: References, s: Section, id: string)
    requires Exact(refs, s)
    ensures id in s.requirementIds <==> LinkedId(refs, id, s.reference)
    ensures Distinct(s.requirementIds) && Sorted(StringLe, s.requirementIds)
  {
    AscendingDistinct(set id | id in refs && Linked(refs[id], s.reference));
    AscendingSorted(set id | id in refs && Linked(refs[id], s.reference));
  }

  /** The citation shares a source line with `reference`. */
  ghost predicate SharesLine(s: string, reference: string) {
    && Parse(s).Some? && Parse(reference).Some?
    && Parse(s).value.sourceId == Parse(reference).value.sourceId
    && exists n :: Cites(Parse(s).value, n) && Cites(Parse(reference).value, n)
  }

  /** In terms of source lines: a section cited by a two-ended SRC citation lists exactly the
      requirements of which some two-ended SRC citation shares a line with it. */
  lemma SectionListsSharedLines(refs: References, s: Section, id: string)
    requires Exact(refs, s) && ScriptCitation(s.reference) && Parse(s.reference).Some?
    requires id in refs ==> forall c :: c in refs[id] && ScriptCitation(c) ==> Parse(c).Some?
    ensures id in s.requirementIds <==>
              id in refs && exists c :: c in refs[id] && ScriptCitation(c) && SharesLine(c, s.reference)
  {
    SectionListsItsRequirements(refs, s, id);
    if id in refs {
      forall c | c in refs[id] && ScriptCitation(c) ensures ScriptOverlaps(c, s.reference) <==> SharesLine(c, s.reference) {
        ScriptOverlapIsCommonLine(c, s.reference);
      }
    }
  }

  /** Every contracted requirement ends up listed in its section, when the section's citation is a
      two-ended SRC citation in order. */
  lemma ContractedIsListed(refs: References, sections: seq<Section>, c: Contract, id: string, k: nat)
    requires Honoured(refs, sections, c) && id in c.requirementIds && IsSection(sections, c.sectionId, k)
    requires Exact(refs, sections[k])
    requires ScriptCitation(sections[k].reference)
             && Value(sections[k].reference[9..15]) <= Value(sections[k].reference[17..])
    ensures id in sections[k].requirementIds
  {
    SelfOverlap(sections[k].reference);
    assert Reached(refs, id, sections[k].reference);
    SectionListsItsRequirements(refs, sections[k], id);
  }

  /** That condition is exact: a contract alone guarantees its link, whatever the requirement cites,
      if and only if the section's citation overlaps itself. */
  lemma ContractGuarantee(reference: string, id: string)
    ensures (forall refs: References :: id in refs ==> LinkedId(WithLink(refs, id, reference), id, reference))
       <==> ScriptCitation(reference) && Value(reference[9..15]) <= Value(reference[17..])
  {
    SelfOverlap(reference);
    forall refs: References | id in refs
      ensures LinkedId(WithLink(refs, id, reference), id, reference) <==>
                LinkedId(refs, id, reference) || ScriptOverlaps(reference, reference)
    {
      WithLinkSpec(refs, id, reference);
    }
    var bare: References := map[id := []];
    assert id in bare && !LinkedId(bare, id, reference);
  }

  /** A section cited by a single line, or outside SRC, is linked to nothing at all. */
  lemma UnmatchedSectionStaysEmpty(refs: References, s: Section)
    requires Exact(refs, s) && !ScriptCitation(s.reference)
    ensures s.requirementIds == []
  {
    assert (set id | id in refs && Linked(refs[id], s.reference)) == {};
  }
}
