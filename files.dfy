/** The upload naming pipeline of `UploadImage`: the sanitised base name, the
    extension taken from the uploaded file name or from the content type, the
    probe for a free name in the images directory, and the bytes written there.
    The directory is a map from the names it holds to their contents. */
module Files {
  import opened Wrappers
  import opened Text

  newtype byte = x: int | 0 <= x < 256

  // ---------------------------------------------------------------- sanitising the base

  /** The characters a sanitised base consists of: `[a-z0-9_-]`. */
  predicate IsSafeChar(c: char) { IsAsciiLower(c) || IsDigit(c) || c == '-' || c == '_' }

  predicate AllSafe(s: string) { forall i :: 0 <= i < |s| ==> IsSafeChar(s[i]) }

  predicate NoDoubleDash(s: string) { forall i :: 0 <= i < |s| - 1 ==> !(s[i] == '-' && s[i + 1] == '-') }

  /** strings.ReplaceAll(s, " ", "-") */
  function ReplaceSpaces(s: string): (r: string)
    ensures |r| == |s|
    ensures forall i :: 0 <= i < |s| ==> r[i] != ' ' && (s[i] != ' ' ==> r[i] == s[i])
  {
    seq(|s|, i requires 0 <= i < |s| => if s[i] == ' ' then '-' else s[i])
  }

  /** What the first builder loop produces: the characters of `[a-z0-9_-]`, in order. */
  function KeepSafe(s: string): string
  {
    if s == [] then []
    else KeepSafe(s[..|s| - 1]) + (if IsSafeChar(s[|s| - 1]) then [s[|s| - 1]] else [])
  }

  /** What the second builder loop produces: a '-' is written only when the
      character before it was not a '-'. */
  function CollapseDashes(s: string): string
  {
    if s == [] then []
    else if s[|s| - 1] == '-' && |s| > 1 && s[|s| - 2] == '-' then CollapseDashes(s[..|s| - 1])
    else CollapseDashes(s[..|s| - 1]) + [s[|s| - 1]]
  }

  /** The value sanitizeFileBase returns. */
  function Sanitized(s: string): string
  {
    CollapseDashes(KeepSafe(ReplaceSpaces(Lower(TrimSpace(s)))))
  }

  /** sanitizeFileBase: trim, lower-case, spaces to '-', keep `[a-z0-9_-]`,
      then collapse runs of '-'. */
  method SanitizeFileBase(name: string) returns (out: string)
    ensures out == Sanitized(name)
    ensures AllSafe(out) && NoDoubleDash(out)
  {
    SanitizedIsSafe(name);
    var s := TrimSpace(name);
    s := Lower(s);
    s := ReplaceSpaces(s);
    var kept := KeepSafeChars(s);
    if kept == "" {
      return kept;
    }
    out := CollapseDashRuns(kept);
  }

  /** The first builder loop of sanitizeFileBase. */
  method KeepSafeChars(s: string) returns (b: string)
    ensures b == KeepSafe(s)
  {
    b := "";
    var i := 0;
    while i < |s|
      invariant 0 <= i <= |s|
      invariant b == KeepSafe(s[..i])
    {
      assert s[..i + 1][..i] == s[..i];
      var r := s[i];
      if 'a' <= r <= 'z' {
        b := b + [r];
      } else if '0' <= r <= '9' {
        b := b + [r];
      } else if r == '-' || r == '_' {
        b := b + [r];
      }
      i := i + 1;
    }
    assert s[..|s|] == s;
  }

  /** The second builder loop of sanitizeFileBase. */
  method CollapseDashRuns(kept: string) returns (b: string)
    ensures b == CollapseDashes(kept)
  {
    b := "";
    var prevDash := false;
    var i := 0;
    while i < |kept|
      invariant 0 <= i <= |kept|
      invariant b == CollapseDashes(kept[..i])
      invariant prevDash == (i > 0 && kept[i - 1] == '-')
    {
      assert kept[..i + 1][..i] == kept[..i];
      var r := kept[i];
      if r == '-' {
        if !prevDash {
          b := b + [r];
        }
        prevDash := true;
      } else {
        prevDash := false;
        b := b + [r];
      }
      i := i + 1;
    }
    assert kept[..|kept|] == kept;
  }

  lemma {:induction false} KeepSafeIsSafe(s: string)
    ensures AllSafe(KeepSafe(s))
  {
    if s != [] {
      KeepSafeIsSafe(s[..|s| - 1]);
    }
  }

  lemma {:induction false} CollapseKeepsCharacters(s: string)
    ensures forall c :: c in CollapseDashes(s) ==> c in s
  {
    if s != [] {
      CollapseKeepsCharacters(s[..|s| - 1]);
      assert s == s[..|s| - 1] + [s[|s| - 1]];
    }
  }

  /** Collapsing never removes the last character. */
  lemma {:induction false} CollapseKeepsLast(s: string)
    requires s != []
    ensures CollapseDashes(s) != [] && CollapseDashes(s)[|CollapseDashes(s)| - 1] == s[|s| - 1]
  {
    if s[|s| - 1] == '-' && |s| > 1 && s[|s| - 2] == '-' {
      CollapseKeepsLast(s[..|s| - 1]);
    }
  }

  lemma {:induction false} CollapseHasNoDoubleDash(s: string)
    ensures NoDoubleDash(CollapseDashes(s))
  {
    if s != [] {
      var init := s[..|s| - 1];
      CollapseHasNoDoubleDash(init);
      if !(s[|s| - 1] == '-' && |s| > 1 && s[|s| - 2] == '-') && |s| > 1 {
        CollapseKeepsLast(init);
      }
    }
  }

  /** Every character of a sanitised base is in `[a-z0-9_-]`, and no two '-' are adjacent. */
  lemma SanitizedIsSafe(s: string)
    ensures AllSafe(Sanitized(s)) && NoDoubleDash(Sanitized(s))
  {
    var kept := KeepSafe(ReplaceSpaces(Lower(TrimSpace(s))));
    KeepSafeIsSafe(ReplaceSpaces(Lower(TrimSpace(s))));
    CollapseKeepsCharacters(kept);
    CollapseHasNoDoubleDash(kept);
    var out := CollapseDashes(kept);
    forall i | 0 <= i < |out| ensures IsSafeChar(out[i]) {
      assert out[i] in kept;
    }
  }

  lemma {:induction false} KeepSafeOfSafe(s: string)
    requires AllSafe(s)
    ensures KeepSafe(s) == s
  {
    if s != [] {
      KeepSafeOfSafe(s[..|s| - 1]);
      assert s == s[..|s| - 1] + [s[|s| - 1]];
    }
  }

  lemma {:induction false} CollapseOfCollapsed(s: string)
    requires NoDoubleDash(s)
    ensures CollapseDashes(s) == s
  {
    if s != [] {
      CollapseOfCollapsed(s[..|s| - 1]);
      assert s == s[..|s| - 1] + [s[|s| - 1]];
    }
  }

  /** Sanitising an already sanitised base returns it unchanged. */
  lemma SanitizeIdempotent(s: string)
    ensures Sanitized(Sanitized(s)) == Sanitized(s)
  {
    var t := Sanitized(s);
    SanitizedIsSafe(s);
    SafeIsFixed(t);
    KeepSafeOfSafe(t);
    CollapseOfCollapsed(t);
  }

  /** Trimming, lower-casing and replacing spaces leave a safe string alone. */
  lemma SafeIsFixed(t: string)
    requires AllSafe(t)
    ensures ReplaceSpaces(Lower(TrimSpace(t))) == t
  {
    TrimKeepsTrimmed(t, IsGoSpace);
    LowerOfSafe(t);
    ReplaceSpacesOfSafe(t);
  }

  lemma LowerOfSafe(t: string)
    requires AllSafe(t)
    ensures Lower(t) == t
  {
    var l := Lower(t);
    forall i | 0 <= i < |t| ensures l[i] == t[i] {
      assert IsSafeChar(t[i]);
    }
  }

  lemma ReplaceSpacesOfSafe(t: string)
    requires AllSafe(t)
    ensures ReplaceSpaces(t) == t
  {
    var r := ReplaceSpaces(t);
    forall i | 0 <= i < |t| ensures r[i] == t[i] {
      assert IsSafeChar(t[i]);
    }
  }


  /** How one character of the trimmed name fares: an ASCII upper-case letter
      becomes its lower-case letter, a space becomes '-', a character of
      `[a-z0-9_-]` stays, and everything else (tabs included) is dropped. */
  function CharImage(c: char): string
  {
    if IsAsciiUpper(c) then [LowerChar(c)]
    else if c == ' ' then ['-']
    else if IsSafeChar(c) then [c]
    else []
  }

  function MapChars(s: string): string
  {
    if s == [] then [] else MapChars(s[..|s| - 1]) + CharImage(s[|s| - 1])
  }

  /** Lower-casing, replacing spaces and filtering together treat each
      character on its own and keep the survivors in their original order. */
  lemma {:induction false} FilterIsPerCharacter(s: string)
    ensures KeepSafe(ReplaceSpaces(Lower(s))) == MapChars(s)
  {
    if s != [] {
      var init := s[..|s| - 1];
      FilterIsPerCharacter(init);
      var t := ReplaceSpaces(Lower(s));
      assert t[..|t| - 1] == ReplaceSpaces(Lower(init));
    }
  }

  /** The base used for naming: the sanitised name, or "file" when nothing survives. */
  function NamingBase(baseName: string): (base: string)
    ensures base != [] && AllSafe(base) && NoDoubleDash(base)
    ensures Sanitized(baseName) != [] ==> base == Sanitized(baseName)
  {
    SanitizedIsSafe(baseName);
    var b := Sanitized(baseName);
    if b == "" then "file" else b
  }

  /** The `base` of UploadImage: the sanitised name, or "file" when it is empty. */
  method FileBaseFor(baseName: string) returns (base: string)
    ensures base == NamingBase(baseName)
  {
    base := SanitizeFileBase(baseName);
    if base == "" {
      base := "file";
    }
  }

  // ---------------------------------------------------------------- the extension

  predicate NoSlashFrom(path: string, k: int)
    requires 0 <= k <= |path|
  {
    forall m :: k <= m < |path| ==> path[m] != '/'
  }

  /** No '.' in the final element of `path` (the part after the last '/'). */
  predicate FinalElementHasNoDot(path: string)
  {
    forall k :: 0 <= k < |path| && NoSlashFrom(path, k) ==> path[k] != '.'
  }

  predicate IsSuffixOf(r: string, s: string)
  {
    |r| <= |s| && s[|s| - |r|..] == r
  }

  function ExtScan(path: string, i: nat): (r: string)
    requires i <= |path|
    requires forall m :: i <= m < |path| ==> path[m] != '/' && path[m] != '.'
    ensures r == "" ==> FinalElementHasNoDot(path)
    ensures r != "" ==> IsSuffixOf(r, path) && r[0] == '.' && forall m :: 0 < m < |r| ==> r[m] != '/' && r[m] != '.'
    decreases i
  {
    if i == 0 || path[i - 1] == '/' then ""
    else if path[i - 1] == '.' then path[i - 1..]
    else ExtScan(path, i - 1)
  }

  /** filepath.Ext: the suffix of `path` from the last '.' in its final element,
      or "" when that element has no '.'. */
  function Ext(path: string): (r: string)
    ensures r == "" <==> FinalElementHasNoDot(path)
    ensures r != "" ==> IsSuffixOf(r, path) && r[0] == '.' && '/' !in r && '.' !in r[1..]
  {
    var r := ExtScan(path, |path|);
    assert r != "" ==> path[|path| - |r|] == '.' && NoSlashFrom(path, |path| - |r|);
    r
  }

  datatype StreamError = BytesLimitExceeded | StreamReadFailed

  datatype UploadError = PrepareDirFailed | UnknownFileType | SaveFailed | WriteHeadFailed | CopyFailed(cause: StreamError)

  /** The four content types the extension table knows. */
  predicate IsKnownImageType(contentType: string)
  {
    contentType == "image/jpeg" || contentType == "image/png" || contentType == "image/webp" || contentType == "image/gif"
  }

  /** The extension `UploadImage` uses: the uploaded file name's own extension,
      taken as it is, else the one the content type maps to. */
  function ExtensionFor(originalFilename: string, contentType: string): (r: Result<string, UploadError>)
    ensures Ext(originalFilename) != "" ==> r == Success(Ext(originalFilename))
    ensures r.Failure? <==> Ext(originalFilename) == "" && !IsKnownImageType(contentType)
    ensures r.Failure? ==> r.error == UnknownFileType
    ensures r.Success? ==> r.value != "" && r.value[0] == '.'
    ensures Ext(originalFilename) == "" && contentType == "image/jpeg" ==> r == Success(".jpg")
    ensures Ext(originalFilename) == "" && contentType == "image/png" ==> r == Success(".png")
    ensures Ext(originalFilename) == "" && contentType == "image/webp" ==> r == Success(".webp")
    ensures Ext(originalFilename) == "" && contentType == "image/gif" ==> r == Success(".gif")
  {
    var ext := Ext(originalFilename);
    if ext != "" then Success(ext)
    else if contentType == "image/jpeg" then Success(".jpg")
    else if contentType == "image/png" then Success(".png")
    else if contentType == "image/webp" then Success(".webp")
    else if contentType == "image/gif" then Success(".gif")
    else Failure(UnknownFileType)
  }

  // ---------------------------------------------------------------- the free name

  /** The k-th name tried: `base+ext` first, then `base-k+ext`. */
  function Candidate(base: string, ext: string, k: nat): string
  {
    if k == 0 then base + ext else base + "-" + NatToString(k) + ext
  }

  /** Different probe numbers give different names. */
  lemma CandidateInjective(base: string, ext: string, i: nat, j: nat)
    requires 1 <= i && 1 <= j
    requires Candidate(base, ext, i) == Candidate(base, ext, j)
    ensures i == j
  {
    var a := base + "-";
    var s := Candidate(base, ext, i);
    assert s == a + NatToString(i) + ext;
    assert s == a + NatToString(j) + ext;
    assert NatToString(i) == s[|a|..|s| - |ext|];
    assert NatToString(j) == s[|a|..|s| - |ext|];
    NatToStringInjective(i, j);
  }

  /** Candidate k is free and every earlier candidate is taken. */
  ghost predicate IsLeastFree(existing: set<string>, base: string, ext: string, k: nat)
  {
    Candidate(base, ext, k) !in existing && forall j :: 0 <= j < k ==> Candidate(base, ext, j) in existing
  }

  ghost predicate IsChosenName(existing: set<string>, base: string, ext: string, name: string)
  {
    exists k: nat :: name == Candidate(base, ext, k) && IsLeastFree(existing, base, ext, k)
  }

  /** The collision probe: `base+ext` when free, else `base-i+ext` for the least
      free i >= 1. It ends because the directory holds finitely many names. */
  method ResolveCollision(existing: set<string>, base: string, ext: string) returns (fname: string)
    ensures fname !in existing
    ensures IsChosenName(existing, base, ext, fname)
  {
    fname := base + ext;
    if fname !in existing {
      assert IsLeastFree(existing, base, ext, 0);
      return;
    }
    var i := 1;
    ghost var probed: set<string> := {};
    while true
      invariant i >= 1
      invariant probed <= existing
      invariant forall x :: x in probed ==> exists j :: 1 <= j < i && x == Candidate(base, ext, j)
      invariant forall j :: 0 <= j < i ==> Candidate(base, ext, j) in existing
      decreases existing - probed
    {
      var candidate := base + "-" + NatToString(i) + ext;
      assert candidate == Candidate(base, ext, i);
      if candidate !in existing {
        fname := candidate;
        assert IsLeastFree(existing, base, ext, i);
        return;
      }
      assert candidate !in probed by {
        forall x | x in probed ensures x != candidate {
          var j :| 1 <= j < i && x == Candidate(base, ext, j);
          if x == candidate {
            CandidateInjective(base, ext, i, j);
          }
        }
      }
      probed := probed + {candidate};
      i := i + 1;
    }
  }

  /** At most one name is the least free one: the probe's answer is determined. */
  lemma ChosenNameUnique(existing: set<string>, base: string, ext: string, n1: string, n2: string)
    requires IsChosenName(existing, base, ext, n1) && IsChosenName(existing, base, ext, n2)
    ensures n1 == n2
  {
  }

  // ---------------------------------------------------------------- writing the file

  /** Every stored file is served under this prefix. */
  const PublicPrefix := "/files/images/"

  /** The file name a public reference points at. */
  function FileOfReference(ref: string): (name: string)
    requires HasPrefix(ref, PublicPrefix)
    ensures ref == PublicPrefix + name
  {
    assert ref == ref[..|PublicPrefix|] + ref[|PublicPrefix|..];
    ref[|PublicPrefix|..]
  }

  /** The file system calls that can fail: MkdirAll, Create, and the write of the sniffed head. */
  datatype DiskFault = NoDiskFault | MkdirFails | CreateFails | HeadWriteFails

  /** What UploadImage leaves behind and returns, in the code's order: the
      directory cannot be made; the type maps to no extension (nothing
      written); the file cannot be created; otherwise a file is created under
      the least free name for the sanitised base and the extension, and
      WrittenAs says what it then holds. `data` is the sniffed head. */
  ghost predicate UploadOutcome(before: map<string, seq<byte>>, after: map<string, seq<byte>>,
                                baseName: string, originalFilename: string, contentType: string,
                                data: seq<byte>, rest: seq<byte>, restError: Option<StreamError>,
                                fault: DiskFault, r: Result<string, UploadError>)
  {
    var extension := ExtensionFor(originalFilename, contentType);
    if fault == MkdirFails then r == Failure(PrepareDirFailed) && after == before
    else if extension.Failure? then r == Failure(UnknownFileType) && after == before
    else if fault == CreateFails then r == Failure(SaveFailed) && after == before
    else
      exists name ::
        IsChosenName(before.Keys, NamingBase(baseName), extension.value, name)
        && WrittenAs(before, after, data, rest, restError, fault, name, r)
  }

  /** The created file `name`: left empty when the head cannot be written;
      otherwise it holds the head and what the copy delivered, and the copy's
      error, if any, is the result, else the public reference. */
  ghost predicate WrittenAs(before: map<string, seq<byte>>, after: map<string, seq<byte>>,
                            data: seq<byte>, rest: seq<byte>, restError: Option<StreamError>,
                            fault: DiskFault, name: string, r: Result<string, UploadError>)
  {
    if fault == HeadWriteFails && data != [] then
      r == Failure(WriteHeadFailed) && after == before[name := []]
    else
      && after == before[name := data + rest]
      && r == if restError.Some? then Failure(CopyFailed(restError.value)) else Success(PublicPrefix + name)
  }

  /** Without a disk fault or a copy error, a known extension is enough for
      the upload to succeed. */
  lemma UploadWithoutFaultSucceeds(before: map<string, seq<byte>>, after: map<string, seq<byte>>,
                                   baseName: string, originalFilename: string, contentType: string,
                                   data: seq<byte>, rest: seq<byte>, restError: Option<StreamError>,
                                   fault: DiskFault, r: Result<string, UploadError>)
    requires UploadOutcome(before, after, baseName, originalFilename, contentType, data, rest, restError, fault, r)
    requires fault == NoDiskFault && restError.None?
    ensures ExtensionFor(originalFilename, contentType).Success? <==> r.Success?
  {
    var extension := ExtensionFor(originalFilename, contentType);
    if extension.Success? {
      var name :| IsChosenName(before.Keys, NamingBase(baseName), extension.value, name)
                  && WrittenAs(before, after, data, rest, restError, fault, name, r);
    }
  }

  /** The `images` directory under the upload root. */
  class ImageDir {
    var files: map<string, seq<byte>>

    constructor (files: map<string, seq<byte>>)
      ensures this.files == files
    {
      this.files := files;
    }

    /** UploadImage: writes `head[..n]` followed by what the rest of the stream
        yields (`rest`, ended by `restError` when the stream failed) under a
        fresh name, and returns the public reference. */
    method UploadImage(baseName: string, originalFilename: string, contentType: string,
                       head: seq<byte>, n: int, rest: seq<byte>, restError: Option<StreamError>,
                       fault: DiskFault)
      returns (r: Result<string, UploadError>)
      requires 0 <= n <= |head|
      modifies this
      ensures UploadOutcome(old(files), files, baseName, originalFilename, contentType, head[..n], rest, restError, fault, r)
      ensures r.Success? ==>
        && HasPrefix(r.value, PublicPrefix)
        && FileOfReference(r.value) !in old(files)
        && files == old(files)[FileOfReference(r.value) := head[..n] + rest]
    {
      if fault == MkdirFails {
        return Failure(PrepareDirFailed);
      }
      var extension := ExtensionFor(originalFilename, contentType);
      if extension.Failure? {
        return Failure(UnknownFileType);
      }
      var ext := extension.value;
      var base := FileBaseFor(baseName);
      var fname := ResolveCollision(files.Keys, base, ext);
      if fault == CreateFails {
        return Failure(SaveFailed);
      }
      assert IsChosenName(old(files).Keys, NamingBase(baseName), ext, fname);
      // Create leaves an empty file; the head and then the rest are appended to it.
      if n > 0 && fault == HeadWriteFails {
        files := files[fname := []];
        r := Failure(WriteHeadFailed);
        assert WrittenAs(old(files), files, head[..n], rest, restError, fault, fname, r);
        return;
      }
      files := files[fname := head[..n] + rest];
      if restError.Some? {
        r := Failure(CopyFailed(restError.value));
        assert WrittenAs(old(files), files, head[..n], rest, restError, fault, fname, r);
        return;
      }
      r := Success(PublicPrefix + fname);
      assert WrittenAs(old(files), files, head[..n], rest, restError, fault, fname, r);
      assert FileOfReference(r.value) == fname;
    }
  }
}
