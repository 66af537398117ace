/**
 The write-once archive: complete files are published under
 YYYY/MM/<name>.eml by a link that never replaces an existing file.
 */
module Archive {
  import opened Common
  import opened Decimal
  import opened Lines

  type Path = string

  type Files = map<Path, Bytes>

  /** The hexadecimal first six bytes of SHA-256; any function of the content will do. */
  type Digest6 = Bytes -> string

  const EXTENSION := ".eml"
  const MAX_BASE_NAME := 120

  // ----- names

  predicate IsSafe(c: char) {
    'a' <= c <= 'z' || 'A' <= c <= 'Z' || '0' <= c <= '9' || c == '.' || c == '_' || c == '-'
  }

  function Masked(s: string): (r: string)
    ensures |r| == |s|
    ensures forall i :: 0 <= i < |r| ==> r[i] == if IsSafe(s[i]) then s[i] else '_'
  {
    seq(|s|, i requires 0 <= i < |s| => if IsSafe(s[i]) then s[i] else '_')
  }

  function AtMost(s: string, n: nat): string {
    if |s| <= n then s else s[..n]
  }

  /** The file name for a Message-ID, empty when nothing usable is left. */
  function SafeName(messageId: string): (name: string)
    ensures |name| <= MAX_BASE_NAME
    ensures forall c :: c in name ==> IsSafe(c)
    ensures name != "" ==> name[0] != '.' && name[|name| - 1] != '.'
  {
    Trim(Masked(AtMost(Trim(messageId, {'<', '>', ' ', '\t'}), MAX_BASE_NAME)), {'.'})
  }

  lemma MaskedPrefix(s: string, i: nat)
    requires i < |s|
    ensures Masked(s[..i + 1]) == Masked(s[..i]) + [if IsSafe(s[i]) then s[i] else '_']
  {
  }

  /** The loop of the source, with its early exit at the length limit. */
  method MaskLimited(id: string) returns (b: string)
    ensures b == Masked(AtMost(id, MAX_BASE_NAME))
  {
    b := "";
    for i := 0 to |id|
      invariant i <= MAX_BASE_NAME && b == Masked(id[..i])
      invariant i == MAX_BASE_NAME ==> i == |id|
    {
      MaskedPrefix(id, i);
      b := b + [if IsSafe(id[i]) then id[i] else '_'];
      if |b| >= MAX_BASE_NAME {
        assert id[..i + 1] == AtMost(id, MAX_BASE_NAME);
        return;
      }
    }
    assert id[..|id|] == id;
  }

  method ComputeSafeName(messageId: string) returns (name: string)
    ensures name == SafeName(messageId)
  {
    var b := MaskLimited(Trim(messageId, {'<', '>', ' ', '\t'}));
    name := Trim(b, {'.'});
  }

  function NameFor(messageId: string, uid: Uint32): string {
    var name := SafeName(messageId);
    if name == "" then "uid-" + FormatUint(uid) else name
  }

  /** Where one message may be stored: its month directory and base name. */
  datatype Slot = Slot(month: string, name: string)

  function BasePath(slot: Slot): Path {
    slot.month + "/" + slot.name + EXTENSION
  }

  function AlternatePath(slot: Slot, digest: string): Path {
    slot.month + "/" + slot.name + "-" + digest + EXTENSION
  }

  lemma TrimmedId(before: string, id: string, after: string)
    requires AllIn(before, {'<', '>', ' ', '\t'}) && AllIn(after, {'<', '>', ' ', '\t'})
    requires id != "" && id[0] !in {'<', '>', ' ', '\t'} && id[|id| - 1] !in {'<', '>', ' ', '\t'}
    ensures SafeName(before + id + after) == Trim(Masked(AtMost(id, MAX_BASE_NAME)), {'.'})
  {
    TrimIs(before, id, after, {'<', '>', ' ', '\t'});
  }

  lemma DotsAreDropped(s: string, a: nat, b: nat)
    requires a < b <= |s| && s[a] != '.' && s[b - 1] != '.' && AllIn(s[..a], {'.'}) && AllIn(s[b..], {'.'})
    ensures Trim(s, {'.'}) == s[a..b]
  {
    assert s == s[..a] + s[a..b] + s[b..];
    TrimIs(s[..a], s[a..b], s[b..], {'.'});
  }

  lemma DotsStay(id: string, n: nat, a: nat, b: nat)
    requires n == (if |id| < 120 then |id| else 120) && a <= b <= n && AllIn(id[..a], {'.'}) && AllIn(id[b..n], {'.'})
    ensures var s := Masked(AtMost(id, MAX_BASE_NAME)); AllIn(s[..a], {'.'}) && AllIn(s[b..], {'.'})
  {
    var s := Masked(AtMost(id, MAX_BASE_NAME));
    forall i | 0 <= i < a
      ensures s[..a][i] == '.'
    {
      assert id[..a][i] in {'.'};
    }
    forall i | 0 <= i < n - b
      ensures s[b..][i] == '.'
    {
      assert id[b..n][i] in {'.'};
    }
  }

  lemma SafeNameSpan(before: string, id: string, after: string, masked: string, a: nat, b: nat)
    requires AllIn(before, {'<', '>', ' ', '\t'}) && AllIn(after, {'<', '>', ' ', '\t'})
    requires id != "" && id[0] !in {'<', '>', ' ', '\t'} && id[|id| - 1] !in {'<', '>', ' ', '\t'}
    requires masked == Masked(AtMost(id, MAX_BASE_NAME)) && a < b <= |masked| && masked[a] != '.' && masked[b - 1] != '.'
    requires AllIn(masked[..a], {'.'}) && AllIn(masked[b..], {'.'})
    ensures SafeName(before + id + after) == masked[a..b]
  {
    TrimmedId(before, id, after);
    DotsAreDropped(masked, a, b);
  }

  /** What a character becomes in a name: ASCII letters, digits, dot, underscore and hyphen stay. */
  function NameCharacter(c: char): char {
    if 'a' <= c <= 'z' || 'A' <= c <= 'Z' || '0' <= c <= '9' || c == '.' || c == '_' || c == '-' then c else '_'
  }

  ghost predicate NameCharacters(name: string, id: string, from: nat) {
    from + |name| <= |id| && forall i :: 0 <= i < |name| ==> name[i] == NameCharacter(id[from + i])
  }

  lemma MaskedIs(id: string, n: nat)
    requires n == if |id| < 120 then |id| else 120
    ensures var s := Masked(AtMost(id, MAX_BASE_NAME)); |s| == n && NameCharacters(s, id, 0)
  {
  }

  lemma SpanIsMasked(masked: string, id: string, a: nat, b: nat)
    requires NameCharacters(masked, id, 0) && a < b <= |masked|
    ensures NameCharacters(masked[a..b], id, a)
    ensures id[a] != '.' ==> masked[a] != '.'
    ensures id[b - 1] != '.' ==> masked[b - 1] != '.'
  {
  }

  /**
   The name for an id in brackets and blanks that itself starts and ends with none: its
   first 120 characters without the dots at either end, and an underscore for each that
   is no ASCII letter, digit, dot, underscore or hyphen.
   */
  lemma SafeNameIs(before: string, id: string, after: string, n: nat, a: nat, b: nat)
    requires AllIn(before, {'<', '>', ' ', '\t'}) && AllIn(after, {'<', '>', ' ', '\t'})
    requires id != "" && id[0] !in {'<', '>', ' ', '\t'} && id[|id| - 1] !in {'<', '>', ' ', '\t'}
    requires n == (if |id| < 120 then |id| else 120) && a < b <= n && id[a] != '.' && id[b - 1] != '.'
    requires AllIn(id[..a], {'.'}) && AllIn(id[b..n], {'.'})
    ensures |SafeName(before + id + after)| == b - a && NameCharacters(SafeName(before + id + after), id, a)
  {
    var masked := Masked(AtMost(id, MAX_BASE_NAME));
    MaskedIs(id, n);
    DotsStay(id, n, a, b);
    SpanIsMasked(masked, id, a, b);
    SafeNameSpan(before, id, after, masked, a, b);
  }

  /** No name is left of brackets and blanks alone, nor of an id that begins with nothing but dots. */
  lemma SafeNameOfNothing(before: string, id: string, after: string)
    requires AllIn(before, {'<', '>', ' ', '\t'}) && AllIn(after, {'<', '>', ' ', '\t'})
    requires id == "" ||
      (id[0] == '.' && id[|id| - 1] !in {'<', '>', ' ', '\t'} && AllIn(id[..if |id| < 120 then |id| else 120], {'.'}))
    ensures SafeName(before + id + after) == ""
  {
    if id == "" {
      assert AllIn(before + id + after, {'<', '>', ' ', '\t'});
      TrimmedAway(before + id + after, {'<', '>', ' ', '\t'});
    } else {
      TrimmedId(before, id, after);
      DotsStay(id, if |id| < 120 then |id| else 120, 0, 0);
      assert Masked(AtMost(id, MAX_BASE_NAME))[0..] == Masked(AtMost(id, MAX_BASE_NAME));
      TrimmedAway(Masked(AtMost(id, MAX_BASE_NAME)), {'.'});
    }
  }

  /** Published files; temporary files have another extension. */
  predicate IsPublished(p: Path) {
    |p| >= |EXTENSION| && p[|p| - |EXTENSION|..] == EXTENSION
  }

  lemma SlotPathsArePublished(slot: Slot, digest: string)
    ensures IsPublished(BasePath(slot)) && IsPublished(AlternatePath(slot, digest))
    ensures BasePath(slot) != AlternatePath(slot, digest)
  {
    assert |AlternatePath(slot, digest)| > |BasePath(slot)|;
  }

  // ----- writing, as a function of the published files

  datatype Target = Holding(path: Path) | Vacant(path: Path) | Clash

  /** archiveTarget */
  function FindTarget(files: Files, slot: Slot, raw: Bytes, digest: Digest6): Target {
    var base, alternate := BasePath(slot), AlternatePath(slot, digest(raw));
    if base !in files then Vacant(base)
    else if files[base] == raw then Holding(base)
    else if alternate !in files then Vacant(alternate)
    else if files[alternate] == raw then Holding(alternate)
    else Clash
  }

  datatype Written = Written(path: Path, files: Files)

  /** The effect of an undisturbed, fault-free Write. */
  function Write(files: Files, slot: Slot, raw: Bytes, digest: Digest6): Result<Written> {
    match FindTarget(files, slot, raw, digest)
    case Holding(p) => Ok(Written(p, files))
    case Vacant(p) => Ok(Written(p, files[p := raw]))
    case Clash => Err
  }

  /** later holds every file of earlier, unchanged. */
  predicate Preserves(earlier: Files, later: Files) {
    forall p :: p in earlier ==> p in later && later[p] == earlier[p]
  }

  lemma PreservesTransitive(a: Files, b: Files, c: Files)
    requires Preserves(a, b) && Preserves(b, c)
    ensures Preserves(a, c)
  {
  }

  /** A successful write stores exactly these bytes at the reported path and changes nothing else. */
  lemma WriteStores(files: Files, slot: Slot, raw: Bytes, digest: Digest6)
    requires Write(files, slot, raw, digest).Ok?
    ensures var w := Write(files, slot, raw, digest).value;
      && w.path in w.files && w.files[w.path] == raw
      && Preserves(files, w.files) && w.files.Keys == files.Keys + {w.path}
      && w.path in {BasePath(slot), AlternatePath(slot, digest(raw))}
  {
  }

  /**
   A write in full: it goes to the plain name if that is free or holds these bytes, else to
   the one with the hash, and fails only when that too holds other bytes.
   */
  lemma WriteReports(files: Files, slot: Slot, raw: Bytes, digest: Digest6, path: Path)
    requires var plain, hashed := slot.month + "/" + slot.name + ".eml", slot.month + "/" + slot.name + "-" + digest(raw) + ".eml";
      path == if plain !in files || files[plain] == raw then plain else hashed
    ensures Write(files, slot, raw, digest) ==
      if path !in files then Ok(Written(path, files[path := raw]))
      else if files[path] == raw then Ok(Written(path, files))
      else Err
  {
  }

  /**
   Whatever is added to the archive after a write, the same write reports the same
   path again, finds its bytes there and adds nothing.
   */
  lemma WriteIsStable(files: Files, slot: Slot, raw: Bytes, digest: Digest6, later: Files)
    requires Write(files, slot, raw, digest).Ok?
    requires Preserves(Write(files, slot, raw, digest).value.files, later)
    ensures Write(later, slot, raw, digest) == Ok(Written(Write(files, slot, raw, digest).value.path, later))
    ensures later[Write(files, slot, raw, digest).value.path] == raw
  {
    SlotPathsArePublished(slot, digest(raw));
    var w := Write(files, slot, raw, digest).value;
    assert w.path in later && later[w.path] == raw;
    if w.path != BasePath(slot) {
      assert BasePath(slot) in later && later[BasePath(slot)] == files[BasePath(slot)] != raw;
    }
  }

  /** A write fails only on a clash: both of its paths hold other bytes, and always will. */
  lemma ClashIsPermanent(files: Files, slot: Slot, raw: Bytes, digest: Digest6, later: Files)
    requires Preserves(files, later)
    ensures Write(files, slot, raw, digest).Err? <==>
            BasePath(slot) in files && files[BasePath(slot)] != raw &&
            AlternatePath(slot, digest(raw)) in files && files[AlternatePath(slot, digest(raw))] != raw
    ensures Write(files, slot, raw, digest).Err? ==> Write(later, slot, raw, digest).Err?
  {
  }

  // ----- writing, file system call by file system call

  /** What readers of the archive see of a directory tree. */
  function PublishedOf(files: Files): (r: Files)
    ensures forall p <- r :: IsPublished(p)
  {
    map p | p in files && IsPublished(p) :: files[p]
  }

  lemma TempIsHidden(files: Files, tmp: Path, raw: Bytes)
    requires !IsPublished(tmp)
    ensures PublishedOf(files[tmp := raw]) == PublishedOf(files)
    ensures PublishedOf(files - {tmp}) == PublishedOf(files)
  {
  }

  lemma LinkIsSeen(files: Files, target: Path, raw: Bytes)
    requires IsPublished(target)
    ensures target in PublishedOf(files) <==> target in files
    ensures PublishedOf(files[target := raw]) == PublishedOf(files)[target := raw]
  {
  }

  lemma OthersAreSeen(files: Files, added: Files)
    requires forall p <- added :: p !in files && IsPublished(p)
    ensures PublishedOf(files + added) == PublishedOf(files) + added && added.Keys !! PublishedOf(files).Keys
  {
  }

  /** The archive directory tree, shared with other processes that only ever publish new files. */
  class Disk {
    var files: Files

    constructor ()
      ensures Published() == map[]
    {
      files := map[];
    }

    function Published(): Files
      reads this
    {
      PublishedOf(files)
    }

    /** Other processes link new files at any time; nobody replaces or removes a published one. */
    method OthersPublish() returns (added: Files)
      modifies this
      ensures Published() == old(Published()) + added
      ensures added.Keys !! old(Published()).Keys
      ensures files.Keys >= old(files.Keys) && forall p :: p in old(files) ==> files[p] == old(files[p])
    {
      added := *;
      if forall p <- added :: p !in files && IsPublished(p) {
        OthersAreSeen(files, added);
        files := files + added;
      } else {
        added := map[];
      }
    }

    /** os.Remove of a temporary file; its error is ignored. */
    method RemoveTemp(tmp: Path)
      requires !IsPublished(tmp)
      modifies this
      ensures Published() == old(Published())
    {
      var fails: bool := *;
      TempIsHidden(files, tmp, []);
      if !fails {
        files := files - {tmp};
      }
    }

    /** Fills a new temporary file; any call may fail, leaving any prefix behind. */
    method FillTemp(raw: Bytes) returns (tmp: Option<Path>)
      modifies this
      ensures Published() == old(Published())
      ensures tmp.Some? ==> !IsPublished(tmp.value) && tmp.value in files && files[tmp.value] == raw
    {
      var path: Path := *;
      if IsPublished(path) || path in files {
        return None;
      }
      TempIsHidden(files, path, []);
      files := files[path := []];
      var filled: bool := *;
      if filled {
        TempIsHidden(files, path, raw);
        files := files[path := raw];
        return Some(path);
      }
      var written: int := *;
      var part := if 0 <= written <= |raw| then raw[..written] else [];
      TempIsHidden(files, path, part);
      files := files[path := part];
      RemoveTemp(path);
      return None;
    }

    /** os.Link: fails when the target exists, or for any other reason. */
    method Link(tmp: Path, target: Path) returns (ok: bool)
      requires tmp in files && !IsPublished(tmp) && IsPublished(target)
      modifies this
      ensures ok ==> target !in old(Published()) && Published() == old(Published()[target := files[tmp]])
      ensures !ok ==> files == old(files)
    {
      LinkIsSeen(files, target, files[tmp]);
      ok := *;
      if target in files {
        ok := false;
      }
      if ok {
        files := files[target := files[tmp]];
      }
    }

    /**
     archive.Write. Success is the undisturbed write on what was published by the
     time of the link; failure publishes nothing. No published file ever changes.
     */
    method WriteMessage(slot: Slot, raw: Bytes, digest: Digest6) returns (r: Result<Path>, ghost others: Files)
      modifies this
      ensures others.Keys !! old(Published()).Keys
      ensures r.Ok? ==> Write(old(Published()) + others, slot, raw, digest) == Ok(Written(r.value, Published()))
      ensures r.Err? ==> Published() == old(Published()) + others
    {
      others := map[];
      SlotPathsArePublished(slot, digest(raw));
      assert old(Published()) + others == old(Published());
      var readable: bool := *;
      if !readable {
        return Err, others;
      }
      var target := FindTarget(Published(), slot, raw, digest);
      if target.Clash? {
        return Err, others;
      }
      if target.Holding? {
        return Ok(target.path), others;
      }
      var filled := FillTemp(raw);
      if filled.None? {
        return Err, others;
      }
      var tmp := filled.value;
      var added := OthersPublish();
      others := added;
      var linked := Link(tmp, target.path);
      if linked {
        r := Ok(target.path);
      } else if target.path in files && files[target.path] == raw {
        r := Ok(target.path);
      } else {
        r := Err;
      }
      RemoveTemp(tmp);
    }
  }
}
