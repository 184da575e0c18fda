/** The content-addressed artifact store.

The digest is an arbitrary function of the bytes: nothing below assumes it has no collisions unless
a lemma says so. Files are kept under their digest.
 */
module Artifacts {
  import opened Wrappers

  datatype Reference = Reference(algorithm: string, digest: string, size: nat, mediaType: string)

  datatype Error = InvalidDigest | UnsupportedAlgorithm | NotFound | IntegrityError

  type Files = map<string, Bytes>

  type Hash = Bytes -> string

  //
  // The operations on values.
  //

  function PutRef(h: Hash, content: Bytes, mediaType: string): Reference {
    Reference("sha256", h(content), |content|, mediaType)
  }

  function PutFiles(h: Hash, files: Files, content: Bytes): Files {
    if IsHex64(h(content)) && h(content) !in files then files[h(content) := content] else files
  }

  function PutResult(h: Hash, files: Files, content: Bytes, mediaType: string): Result<Reference, Error> {
    if !IsHex64(h(content)) then Err(InvalidDigest)
    else if h(content) in files && files[h(content)] != content then Err(IntegrityError)
    else Ok(PutRef(h, content, mediaType))
  }

  function GetResult(h: Hash, files: Files, r: Reference): Result<Bytes, Error> {
    if r.algorithm != "sha256" then Err(UnsupportedAlgorithm)
    else if !IsHex64(r.digest) then Err(InvalidDigest)
    else if r.digest !in files then Err(NotFound)
    else if |files[r.digest]| != r.size || h(files[r.digest]) != r.digest then Err(IntegrityError)
    else Ok(files[r.digest])
  }

  class Store {
    const h: Hash
    var files: Files

    constructor (h: Hash)
      ensures this.h == h && files == map[]
    {
      this.h := h;
      files := map[];
    }

    method Put(content: Bytes, mediaType: string) returns (r: Result<Reference, Error>)
      modifies this
      ensures r == PutResult(h, old(files), content, mediaType)
      ensures files == PutFiles(h, old(files), content)
      ensures r.Ok? ==> GetResult(h, files, r.value) == Ok(content)
      ensures r.Ok? ==> && r.value.algorithm == "sha256" && r.value.digest == h(content)
                        && r.value.size == |content| && r.value.mediaType == mediaType
      ensures forall d :: d in old(files) ==> d in files && files[d] == old(files)[d]
    {
      var digest := h(content);
      if !IsHex64(digest) {
        return Err(InvalidDigest);
      }
      if digest in files {
        if files[digest] != content {
          return Err(IntegrityError);
        }
      } else {
        files := files[digest := content];
      }
      return Ok(Reference("sha256", digest, |content|, mediaType));
    }

    method Get(r: Reference) returns (c: Result<Bytes, Error>)
      ensures c == GetResult(h, files, r)
      ensures c == Err(UnsupportedAlgorithm) <==> r.algorithm != "sha256"
      ensures c == Err(InvalidDigest) <==> r.algorithm == "sha256" && !IsHex64(r.digest)
      ensures c == Err(NotFound) <==> r.algorithm == "sha256" && IsHex64(r.digest) && r.digest !in files
      ensures c.Ok? ==> r.digest in files && c.value == files[r.digest] && |c.value| == r.size && h(c.value) == r.digest
    {
      if r.algorithm != "sha256" {
        return Err(UnsupportedAlgorithm);
      }
      if !IsHex64(r.digest) {
        return Err(InvalidDigest);
      }
      if r.digest !in files {
        return Err(NotFound);
      }
      var content := files[r.digest];
      if |content| != r.size || h(content) != r.digest {
        return Err(IntegrityError);
      }
      return Ok(content);
    }

    method Verify(r: Reference) returns (ok: bool)
      ensures ok <==> exists content :: GetResult(h, files, r) == Ok(content)
    {
      var c := Get(r);
      ok := c.Ok?;
    }
  }

  //
  // Histories of puts.
  //

  function AfterPuts(h: Hash, files: Files, contents: seq<Bytes>): Files {
    if contents == [] then files else PutFiles(h, AfterPuts(h, files, contents[..|contents|-1]), contents[|contents|-1])
  }

  lemma {:induction false} PutsKeep(h: Hash, files: Files, contents: seq<Bytes>, d: string)
    requires d in files
    ensures d in AfterPuts(h, files, contents) && AfterPuts(h, files, contents)[d] == files[d]
  {
    if contents != [] { PutsKeep(h, files, contents[..|contents|-1], d); }
  }

  /** For any digest function: a reference once returned yields its bytes after every later history
      of puts, also ones that were refused. */
  lemma ReferenceKeepsItsBytes(h: Hash, start: Files, earlier: seq<Bytes>, content: Bytes, mediaType: string, later: seq<Bytes>)
    requires PutResult(h, AfterPuts(h, start, earlier), content, mediaType).Ok?
    ensures var files := AfterPuts(h, PutFiles(h, AfterPuts(h, start, earlier), content), later);
            GetResult(h, files, PutRef(h, content, mediaType)) == Ok(content)
  {
    PutsKeep(h, PutFiles(h, AfterPuts(h, start, earlier), content), later, h(content));
  }

  /** Putting the same bytes again returns the same reference and leaves the store unchanged. */
  lemma PutAgain(h: Hash, files: Files, content: Bytes, mediaType: string)
    requires PutResult(h, files, content, mediaType).Ok?
    ensures var after := PutFiles(h, files, content);
            && PutFiles(h, after, content) == after
            && PutResult(h, after, content, mediaType) == PutResult(h, files, content, mediaType)
  {
  }

  /** Whatever happened to the files, what is returned has the size and digest of the reference, and
      it is what was put unless the digest confuses the two. */
  lemma TamperedGet(h: Hash, files: Files, r: Reference)
    requires GetResult(h, files, r).Ok?
    ensures var got := GetResult(h, files, r).value;
            && |got| == r.size && h(got) == r.digest
            && forall content :: r == PutRef(h, content, r.mediaType) && (h(got) == h(content) ==> got == content) ==> got == content
  {
  }

  /** A reference yields exactly what was put when its file still holds it, other bytes when the file
      holds others of the same size and digest, and an error in every other case. */
  lemma GetOfPut(h: Hash, files: Files, content: Bytes, mediaType: string)
    requires IsHex64(h(content))
    ensures var r, d := GetResult(h, files, PutRef(h, content, mediaType)), h(content);
            && (r == Ok(content) <==> d in files && files[d] == content)
            && (r.Ok? <==> d in files && |files[d]| == |content| && h(files[d]) == d)
            && (r == Err(NotFound) <==> d !in files)
  {
  }

  //
  // Concurrent puts.
  //

  /** A process putting `content`: before its first look, after the first look found nothing (its
      temporary file is written), after the second look found nothing, finished, or refused. */
  datatype Process =
    | Starting(content: Bytes)
    | Writing(content: Bytes)
    | Moving(content: Bytes)
    | Finished(content: Bytes)
    | Refused(content: Bytes)

  datatype System = System(files: Files, processes: seq<Process>)

  /** One step of one process; the file system answers each look and each move at once. */
  function ProcessStep(h: Hash, files: Files, p: Process): (Files, Process) {
    match p
    case Starting(c) =>
      if !IsHex64(h(c)) then (files, Refused(c))
      else if h(c) !in files then (files, Writing(c))
      else if files[h(c)] == c then (files, Finished(c))
      else (files, Refused(c))
    case Writing(c) => if h(c) in files then (files, Finished(c)) else (files, Moving(c))
    case Moving(c) => (files[h(c) := c], Finished(c))
    case Finished(_) => (files, p)
    case Refused(_) => (files, p)
  }

  /** A file is only ever put in place by a process that looked twice and found the path free each
      time. */
  lemma LooksTwice(h: Hash, files: Files, p: Process)
    ensures var (after, q) := ProcessStep(h, files, p);
            && (after != files ==> p.Moving? && after == files[h(p.content) := p.content])
            && (q.Moving? && !p.Moving? ==> p.Writing? && h(p.content) !in files)
            && (q.Writing? && !p.Writing? ==> p.Starting? && h(p.content) !in files)
            && (p.Writing? && h(p.content) in files ==> q == Finished(p.content))
            && q.content == p.content
  {}

  function Step(h: Hash, s: System, i: nat): System {
    if i >= |s.processes| then s
    else
      var (files, p) := ProcessStep(h, s.files, s.processes[i]);
      System(files, s.processes[i := p])
  }

  function Interleave(h: Hash, s: System, schedule: seq<nat>): System {
    if schedule == [] then s else Step(h, Interleave(h, s, schedule[..|schedule|-1]), schedule[|schedule|-1])
  }

  function Contents(s: System): seq<Bytes> {
    seq(|s.processes|, i requires 0 <= i < |s.processes| => s.processes[i].content)
  }

  /** Nobody has looked yet. */
  ghost predicate Starts(s: System) { forall p :: p in s.processes ==> p.Starting? }

  /** Two different contents with one digest, both to be put under a path that is still free. */
  predicate Collide(h: Hash, files: Files, a: Bytes, b: Bytes) {
    a != b && h(a) == h(b) && IsHex64(h(a)) && h(a) !in files
  }

  ghost predicate CollisionFree(h: Hash, s: System) {
    forall a, b :: a in Contents(s) && b in Contents(s) ==> !Collide(h, s.files, a, b)
  }

  /** The reference of process `i` yields its bytes, once the process has finished. */
  ghost predicate Kept(h: Hash, s: System, i: nat)
    requires i < |s.processes|
  {
    s.processes[i].Finished? ==>
      forall mediaType :: GetResult(h, s.files, PutRef(h, s.processes[i].content, mediaType)) == Ok(s.processes[i].content)
  }

  /** What a process knows about the path it is working on. */
  ghost predicate Knows(h: Hash, start: Files, files: Files, p: Process) {
    match p
    case Starting(_) => true
    case Writing(c) => IsHex64(h(c)) && h(c) !in start
    case Moving(c) => IsHex64(h(c)) && h(c) !in start
    case Finished(c) => IsHex64(h(c)) && h(c) in files && files[h(c)] == c
    case Refused(_) => true
  }

  /** Files that were there stay as they were; a new one holds the content of one of the processes. */
  ghost predicate FilesFrom(h: Hash, start: Files, contents: seq<Bytes>, files: Files) {
    forall d :: d in start + files ==>
      d in files && if d in start then files[d] == start[d] else files[d] in contents && h(files[d]) == d
  }

  ghost predicate Inv(h: Hash, start: System, s: System) {
    && Contents(s) == Contents(start)
    && FilesFrom(h, start.files, Contents(start), s.files)
    && forall i :: 0 <= i < |s.processes| ==> Knows(h, start.files, s.files, s.processes[i])
  }

  lemma ContentAt(s: System, i: nat)
    requires i < |s.processes|
    ensures s.processes[i].content in Contents(s)
  {
    assert Contents(s)[i] == s.processes[i].content;
  }

  lemma StepContents(h: Hash, s: System, i: nat)
    ensures Contents(Step(h, s, i)) == Contents(s)
  {
    if i < |s.processes| {
      var t := Step(h, s, i);
      assert t.processes[i].content == s.processes[i].content;
    }
  }

  /** One process moves: what it leaves is still accounted for, and it knows what it should. */
  lemma MoverKnows(h: Hash, start: System, s: System, p: Process)
    requires CollisionFree(h, start) && FilesFrom(h, start.files, Contents(start), s.files)
    requires p.content in Contents(start) && Knows(h, start.files, s.files, p)
    ensures var (files, q) := ProcessStep(h, s.files, p);
            FilesFrom(h, start.files, Contents(start), files) && Knows(h, start.files, files, q)
  {
    var c := p.content;
    if p.Writing? && h(c) in s.files {
      assert !Collide(h, start.files, s.files[h(c)], c);
    }
    if p.Starting? { assert h(c) in start.files ==> h(c) in start.files + s.files; }
  }

  /** The others still know what they knew. */
  lemma OthersKnow(h: Hash, start: System, s: System, p: Process, other: Process)
    requires CollisionFree(h, start)
    requires p.content in Contents(start) && other.content in Contents(start)
    requires Knows(h, start.files, s.files, p) && Knows(h, start.files, s.files, other)
    ensures Knows(h, start.files, ProcessStep(h, s.files, p).0, other)
  {
    if p.Moving? && other.Finished? { assert !Collide(h, start.files, p.content, other.content); }
  }

  lemma StepKeepsInv(h: Hash, start: System, s: System, i: nat)
    requires CollisionFree(h, start) && Inv(h, start, s)
    ensures Inv(h, start, Step(h, s, i))
  {
    StepContents(h, s, i);
    if i < |s.processes| {
      var p, t := s.processes[i], Step(h, s, i);
      ContentAt(s, i);
      MoverKnows(h, start, s, p);
      forall k | 0 <= k < |t.processes| ensures Knows(h, start.files, t.files, t.processes[k]) {
        if k != i {
          ContentAt(s, k);
          OthersKnow(h, start, s, p, s.processes[k]);
        }
      }
    }
  }

  lemma {:induction false} InterleavingKeepsInv(h: Hash, start: System, schedule: seq<nat>)
    requires Starts(start) && CollisionFree(h, start)
    ensures Inv(h, start, Interleave(h, start, schedule))
  {
    if schedule == [] {
      forall i | 0 <= i < |start.processes| ensures start.processes[i].Starting? { assert start.processes[i] in start.processes; }
    } else {
      InterleavingKeepsInv(h, start, schedule[..|schedule|-1]);
      StepKeepsInv(h, start, Interleave(h, start, schedule[..|schedule|-1]), schedule[|schedule|-1]);
    }
  }

  /** Two of the processes, whose contents collide, take turns: both pass both looks, and the later
      move replaces the earlier file under a reference already returned. */
  lemma CollidingRaceLosesBytes(h: Hash, s: System, i: nat, j: nat)
    requires i < |s.processes| && j < |s.processes| && s.processes[i].Starting? && s.processes[j].Starting?
    requires Collide(h, s.files, s.processes[i].content, s.processes[j].content)
    ensures var t := Interleave(h, s, [i, j, i, j, i, j]);
            && |t.processes| == |s.processes|
            && t.processes[i] == Finished(s.processes[i].content) && t.processes[j] == Finished(s.processes[j].content)
            && t.files == s.files[h(s.processes[i].content) := s.processes[j].content]
            && !Kept(h, t, i)
  {
    var a, b := s.processes[i].content, s.processes[j].content;
    var s1, s2 := Step(h, s, i), Step(h, Step(h, s, i), j);
    assert s2.files == s.files && s2.processes[i] == Writing(a) && s2.processes[j] == Writing(b);
    var s4 := Step(h, Step(h, s2, i), j);
    assert s4.files == s.files && s4.processes[i] == Moving(a) && s4.processes[j] == Moving(b);
    var s6 := Step(h, Step(h, s4, i), j);
    assert s6.processes[i] == Finished(a) && s6.processes[j] == Finished(b);
    assert s6.files == s.files[h(a) := b];
    SixSteps(h, s, i, j);
    GetOfPut(h, s6.files, a, "");
    assert GetResult(h, s6.files, PutRef(h, a, "")) != Ok(a);
  }

  lemma InterleaveSnoc(h: Hash, s: System, schedule: seq<nat>, i: nat)
    ensures Interleave(h, s, schedule + [i]) == Step(h, Interleave(h, s, schedule), i)
  {
    assert (schedule + [i])[..|schedule|] == schedule;
  }

  lemma TwoSteps(h: Hash, s: System, schedule: seq<nat>, i: nat, j: nat)
    ensures Interleave(h, s, schedule + [i, j]) == Step(h, Step(h, Interleave(h, s, schedule), i), j)
  {
    InterleaveSnoc(h, s, schedule, i);
    InterleaveSnoc(h, s, schedule + [i], j);
    assert schedule + [i] + [j] == schedule + [i, j];
  }

  lemma SixSteps(h: Hash, s: System, i: nat, j: nat)
    ensures Interleave(h, s, [i, j, i, j, i, j]) == Step(h, Step(h, Step(h, Step(h, Step(h, Step(h, s, i), j), i), j), i), j)
  {
    TwoSteps(h, s, [], i, j);
    TwoSteps(h, s, [i, j], i, j);
    TwoSteps(h, s, [i, j, i, j], i, j);
    assert [] + [i, j] == [i, j] && [i, j] + [i, j] == [i, j, i, j] && [i, j, i, j] + [i, j] == [i, j, i, j, i, j];
  }

  /** Any number of processes about to start, on any files: every interleaving leaves every finished
      put's reference true exactly when no two contents collide on a path that is still free. */
  lemma ConcurrentPuts(h: Hash, s: System)
    requires Starts(s)
    ensures CollisionFree(h, s) <==>
              forall schedule, i :: 0 <= i < |Interleave(h, s, schedule).processes| ==> Kept(h, Interleave(h, s, schedule), i)
  {
    if CollisionFree(h, s) {
      forall schedule, i | 0 <= i < |Interleave(h, s, schedule).processes| ensures Kept(h, Interleave(h, s, schedule), i) {
        InterleavingKeepsInv(h, s, schedule);
      }
    } else {
      var a, b :| a in Contents(s) && b in Contents(s) && Collide(h, s.files, a, b);
      var i :| 0 <= i < |s.processes| && Contents(s)[i] == a;
      var j :| 0 <= j < |s.processes| && Contents(s)[j] == b;
      assert s.processes[i] in s.processes && s.processes[j] in s.processes;
      CollidingRaceLosesBytes(h, s, i, j);
    }
  }
}
