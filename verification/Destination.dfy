/** Names and files in the folder a transfer goes to (host-agent/internal/transfer/dest.go).
    The folder is a map from the name of each file in it to the bytes it holds. */
module Destination {
  import opened Prelude
  import opened SafeNames

  type Folder = map<Name, seq<byte>>

  const PART_SUFFIX: Name := [0x2E, 0x70, 0x61, 0x72, 0x74]  // ".part"
  const MAX_COLLISIONS: int := 99

  function Part(path: Name): Name { path + PART_SUFFIX }

  // %d, for a number of at most three digits.
  function Decimal(n: nat): (d: Name)
    requires n < 1000
    ensures 1 <= |d| <= 3 && (n < 100 ==> |d| <= 2)
  {
    if n < 10 then [0x30 + n]
    else if n < 100 then [0x30 + n / 10, 0x30 + n % 10]
    else [0x30 + n / 100, 0x30 + n / 10 % 10, 0x30 + n % 10]
  }

  // The i-th name tried for a file: the name itself, then "stem (2).ext" and on.
  function Candidate(safe: Name, i: nat): Name
    requires i <= MAX_COLLISIONS
  {
    if i == 0 then safe
    else
      SplitExt(safe).0 + Numbering(i + 1) + SplitExt(safe).1
  }

  // " (n)".
  function Numbering(n: nat): (s: Name)
    requires n < 1000
    ensures 4 <= |s| <= 6
  {
    [0x20, 0x28] + Decimal(n) + [0x29]
  }

  // What the operating system does during one Create: the folder may be impossible
  // to make, and the probe or the open of one candidate may fail for a reason other
  // than the name being taken.
  datatype CreateEnv = CreateEnv(mkdirFails: bool, failAt: int)

  const NO_FAILURE: CreateEnv := CreateEnv(false, -1)

  datatype Created = Opened(path: Name) | NotSafe | TooMany | OsRefused

  // Taken: the name is a file's, or a transfer in progress holds it.
  predicate Taken(folder: Folder, name: Name) { name in folder || Part(name) in folder }

  function Search(folder: Folder, safe: Name, i: nat, failAt: int): (r: Created)
    requires i <= MAX_COLLISIONS + 1
    ensures !r.NotSafe?
    decreases MAX_COLLISIONS + 1 - i, safe
  {
    if i > MAX_COLLISIONS then TooMany
    else if i == failAt then OsRefused
    else if Taken(folder, Candidate(safe, i)) then Search(folder, safe, i + 1, failAt)
    else Opened(Candidate(safe, i))
  }

  function CreateResult(folder: Folder, name: Name, env: CreateEnv): Created
  {
    match SafeName(name)
    case BadName => NotSafe
    case Safe(safe) => if env.mkdirFails then OsRefused else Search(folder, safe, 0, env.failAt)
  }

  function AfterCreate(folder: Folder, r: Created): Folder
  {
    if r.Opened? then folder[Part(r.path) := []] else folder
  }

  // A rename needs its source; sync, close and rename may each fail.
  function Finishes(folder: Folder, path: Name, osOk: bool): bool { osOk && Part(path) in folder }

  function AfterFinish(folder: Folder, path: Name, osOk: bool): Folder
  {
    if Finishes(folder, path, osOk) then (folder - {Part(path)})[path := folder[Part(path)]] else folder
  }

  // Removing the partial file is asked for; the operating system may refuse.
  function AfterAbandon(folder: Folder, path: Name, removed: bool): Folder
  {
    if removed then folder - {Part(path)} else folder
  }

  lemma PartDiffers(path: Name)
    ensures Part(path) != path && |Part(path)| == |path| + 5
  {
  }

  // A name found is free in both forms, and is the first candidate that was.
  lemma {:induction false} SearchFindsFree(folder: Folder, safe: Name, i: nat, failAt: int) returns (k: nat)
    requires i <= MAX_COLLISIONS + 1 && Search(folder, safe, i, failAt).Opened?
    ensures i <= k <= MAX_COLLISIONS && Search(folder, safe, i, failAt).path == Candidate(safe, k)
    ensures !Taken(folder, Candidate(safe, k))
    ensures forall j :: i <= j < k ==> Taken(folder, Candidate(safe, j))
    decreases MAX_COLLISIONS + 1 - i
  {
    if Taken(folder, Candidate(safe, i)) {
      k := SearchFindsFree(folder, safe, i + 1, failAt);
    } else {
      k := i;
    }
  }

  // What Create opens never touches a file that is there, in either of its names,
  // and both names fit a file system's limit of 255 bytes with room to spare.
  lemma CreateIsFresh(folder: Folder, name: Name, env: CreateEnv)
    requires CreateResult(folder, name, env).Opened?
    ensures var path := CreateResult(folder, name, env).path;
            path !in folder && Part(path) !in folder && 1 <= |path| <= 206 && |Part(path)| <= 211
  {
    var safe := SafeName(name).name;
    SafeNameIsSound(name);
    var k := SearchFindsFree(folder, safe, 0, env.failAt);
    CandidateLength(safe, k);
  }

  lemma CandidateLength(safe: Name, i: nat)
    requires i <= MAX_COLLISIONS
    ensures |Candidate(safe, i)| == |safe| + (if i == 0 then 0 else |Numbering(i + 1)|) <= |safe| + 6
  {
    assert SplitExt(safe).0 + SplitExt(safe).1 == safe;
  }

  // The search gives up exactly when every candidate is taken.
  lemma {:induction false} TooManyMeansAllTaken(folder: Folder, safe: Name, i: nat)
    requires i <= MAX_COLLISIONS + 1
    ensures !Search(folder, safe, i, -1).OsRefused?
    ensures Search(folder, safe, i, -1) == TooMany
            <==> forall j :: i <= j <= MAX_COLLISIONS ==> Taken(folder, Candidate(safe, j))
    decreases MAX_COLLISIONS + 1 - i
  {
    if i > MAX_COLLISIONS {
    } else {
      TooManyMeansAllTaken(folder, safe, i + 1);
    }
  }

  // No two candidates are the same name.
  lemma CandidatesDiffer(safe: Name, i: nat, j: nat)
    requires i <= MAX_COLLISIONS && j <= MAX_COLLISIONS && Candidate(safe, i) == Candidate(safe, j)
    ensures i == j
  {
    CandidateLength(safe, i);
    CandidateLength(safe, j);
    if i > 0 && j > 0 {
      SameMiddle(SplitExt(safe).0, Numbering(i + 1), Numbering(j + 1), SplitExt(safe).1);
      NumberRead(i + 1);
      NumberRead(j + 1);
    }
  }

  lemma SameMiddle(stem: Name, a: Name, b: Name, ext: Name)
    requires stem + a + ext == stem + b + ext
    ensures a == b
  {
    assert |a| == |b|;
    assert (stem + a + ext)[|stem|..|stem| + |a|] == a;
    assert (stem + b + ext)[|stem|..|stem| + |b|] == b;
  }

  // The number a numbering states.
  function NumberIn(s: Name): int
  {
    if |s| == 4 then Digit(s[2])
    else if |s| == 5 then 10 * Digit(s[2]) + Digit(s[3])
    else if |s| == 6 then 100 * Digit(s[2]) + 10 * Digit(s[3]) + Digit(s[4])
    else -1
  }

  function Digit(b: byte): int { b as int - 0x30 }

  lemma NumberRead(n: nat)
    requires n < 1000
    ensures NumberIn(Numbering(n)) == n
  {
  }

  // What decimal digits say.
  function ValueOf(digits: Name): int
  {
    if digits == [] then 0 else 10 * ValueOf(digits[..|digits| - 1]) + Digit(digits[|digits| - 1])
  }

  predicate IsNumeral(digits: Name, n: int)
  {
    && digits != [] && digits[0] != 0x30 && (forall i :: 0 <= i < |digits| ==> 0x30 <= digits[i] <= 0x39)
    && ValueOf(digits) == n
  }

  // Place p is where the extension of a name begins: at its last dot, unless that is
  // its first character or there is none.
  predicate ExtensionAt(s: Name, p: nat)
  {
    p <= |s| && (if p < |s| then p > 0 && s[p] == 0x2E && 0x2E !in s[p + 1..] else 0x2E !in s[Min(1, |s|)..])
  }

  // A candidate but the first is the name with " (n)" put in before its extension,
  // n being one more than how many candidates came before.
  lemma NumberedBeforeExtension(safe: Name, i: nat) returns (p: nat, digits: Name)
    requires 0 < i <= MAX_COLLISIONS
    ensures ExtensionAt(safe, p) && IsNumeral(digits, i + 1)
    ensures Candidate(safe, i) == safe[..p] + [0x20, 0x28] + digits + [0x29] + safe[p..]
  {
    p, digits := |SplitExt(safe).0|, Decimal(i + 1);
    DecimalIsNumeral(i + 1);
    SplitAtExtension(safe);
    assert safe[..p] == SplitExt(safe).0 && safe[p..] == SplitExt(safe).1;
    assert safe[..p] + ([0x20, 0x28] + digits + [0x29]) + safe[p..]
        == safe[..p] + [0x20, 0x28] + digits + [0x29] + safe[p..];
  }

  lemma DecimalIsNumeral(n: nat)
    requires 0 < n < 1000
    ensures IsNumeral(Decimal(n), n)
  {
    var d := Decimal(n);
    ValueOfLonger(d, |d| - 1);
    if |d| > 1 {
      ValueOfLonger(d[..|d| - 1], |d| - 2);
      if |d| > 2 {
        ValueOfLonger(d[..1], 0);
      }
    }
  }

  lemma ValueOfLonger(d: Name, last: nat)
    requires |d| == last + 1
    ensures ValueOf(d) == 10 * ValueOf(d[..last]) + Digit(d[last])
    ensures last == 0 ==> ValueOf(d) == Digit(d[0])
  {
  }

  lemma SplitAtExtension(s: Name)
    ensures ExtensionAt(s, |SplitExt(s).0|)
  {
    assert LastDot(s) <= 0 ==> forall j :: 0 < j < |s| ==> s[j] != 0x2E;
  }

  ghost predicate Distinct(names: seq<Name>)
  {
    forall i, j :: 0 <= i < j < |names| ==> names[i] != names[j]
  }

  // Each file in the folder can take at most two candidates, so a folder of fewer
  // than fifty files always has a free one of the hundred.
  lemma SmallFolderHasRoom(folder: Folder, safe: Name)
    requires |folder| < 50
    ensures Search(folder, safe, 0, -1).Opened?
  {
    TooManyMeansAllTaken(folder, safe, 0);
    if Search(folder, safe, 0, -1) == TooMany {
      NotAllTaken(folder, safe);
    }
  }

  lemma NotAllTaken(folder: Folder, safe: Name)
    requires |folder| < 50
    ensures exists j :: 0 <= j <= MAX_COLLISIONS && !Taken(folder, Candidate(safe, j))
  {
    var all := AllCandidates(safe);
    if forall j :: 0 <= j < |all| ==> Taken(folder, all[j]) {
      TakenTwice(folder, all);
    } else {
      var j :| 0 <= j < |all| && !Taken(folder, all[j]);
      assert !Taken(folder, Candidate(safe, j));
    }
  }

  lemma AllCandidates(safe: Name) returns (all: seq<Name>)
    ensures |all| == MAX_COLLISIONS + 1 && Distinct(all)
    ensures forall j {:trigger Candidate(safe, j)} :: 0 <= j <= MAX_COLLISIONS ==> all[j] == Candidate(safe, j)
  {
    all := seq(MAX_COLLISIONS + 1, j requires 0 <= j <= MAX_COLLISIONS => Candidate(safe, j));
    forall i, j | 0 <= i < j < |all|
      ensures all[i] != all[j]
    {
      if all[i] == all[j] {
        CandidatesDiffer(safe, i, j);
      }
    }
  }

  // Names all taken, all different: half as many files at least.
  lemma TakenTwice(folder: Folder, names: seq<Name>)
    requires Distinct(names) && forall j :: 0 <= j < |names| ==> Taken(folder, names[j])
    ensures |names| <= 2 * |folder|
  {
    var asFile, asPart := TakenBy(folder, names);
    SubsetSize(asFile, folder.Keys);
    SubsetSize(asPart, folder.Keys);
  }

  lemma SubsetSize(a: set<Name>, b: set<Name>)
    requires a <= b
    ensures |a| <= |b|
  {
    assert b == a + (b - a);
  }

  // Those names that are files, and the partial files of the others.
  lemma {:induction false} TakenBy(folder: Folder, names: seq<Name>) returns (asFile: set<Name>, asPart: set<Name>)
    requires Distinct(names) && forall j :: 0 <= j < |names| ==> Taken(folder, names[j])
    ensures asFile <= folder.Keys && asPart <= folder.Keys && |asFile| + |asPart| == |names|
    ensures forall p :: p in asFile ==> p in names
    ensures forall p :: p in asPart ==> exists q :: q in names && p == Part(q)
  {
    if names == [] {
      asFile, asPart := {}, {};
    } else {
      var last := |names| - 1;
      var c := names[last];
      asFile, asPart := TakenBy(folder, names[..last]);
      assert c !in names[..last];
      if c in folder {
        asFile := asFile + {c};
      } else {
        PartOfNewName(asPart, names[..last], c);
        asPart := asPart + {Part(c)};
      }
    }
  }

  lemma PartOfNewName(parts: set<Name>, names: seq<Name>, c: Name)
    requires c !in names && forall p :: p in parts ==> exists q :: q in names && p == Part(q)
    ensures Part(c) !in parts
  {
    forall q | q in names
      ensures Part(q) != Part(c)
    {
      SamePart(q, c);
    }
  }

  lemma SamePart(p: Name, q: Name)
    ensures Part(p) == Part(q) ==> p == q
  {
    assert Part(p)[..|Part(p)| - 5] == p && Part(q)[..|Part(q)| - 5] == q;
  }

  // The folder as the program changes it.
  class Dest {
    var folder: Folder

    constructor (folder: Folder)
      ensures this.folder == folder
    {
      this.folder := folder;
    }

    method Create(name: Name, env: CreateEnv) returns (r: Created)
      modifies this
      ensures r == CreateResult(old(folder), name, env) && folder == AfterCreate(old(folder), r)
    {
      var safe := MakeSafe(name);
      if safe.BadName? {
        return NotSafe;
      }
      if env.mkdirFails {
        return OsRefused;
      }
      var i := 0;
      while i <= MAX_COLLISIONS
        invariant 0 <= i <= MAX_COLLISIONS + 1 && folder == old(folder)
        invariant Search(folder, safe.name, 0, env.failAt) == Search(folder, safe.name, i, env.failAt)
        decreases MAX_COLLISIONS + 1 - i
      {
        var candidate := Candidate(safe.name, i);
        if i == env.failAt {
          return OsRefused;
        }
        if candidate !in folder && Part(candidate) !in folder {
          folder := folder[Part(candidate) := []];
          return Opened(candidate);
        }
        i := i + 1;
      }
      return TooMany;
    }

    method Finish(path: Name, osOk: bool) returns (ok: bool)
      modifies this
      ensures ok == Finishes(old(folder), path, osOk) && folder == AfterFinish(old(folder), path, osOk)
    {
      if !osOk || Part(path) !in folder {
        return false;
      }
      var bytes := folder[Part(path)];
      folder := folder - {Part(path)};
      folder := folder[path := bytes];
      return true;
    }

    method Abandon(path: Name, removed: bool)
      modifies this
      ensures folder == AfterAbandon(old(folder), path, removed)
    {
      if removed {
        folder := folder - {Part(path)};
      }
    }
  }
}
