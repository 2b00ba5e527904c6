/**
 * The file property's policy: how an uploaded file's name is sanitised, where
 * the upload directory is, which target path an upload goes to without
 * clobbering an existing file, and the mimetype and size checks.
 *
 * The filesystem is the set of paths that exist; `finfo`, `filesize()`,
 * `uniqid()`, `date()` and the application's base path are parameters.
 */
module FileProp {
  import opened PhpValues
  import opened PhpStrings
  import opened PropertyValidation
  import opened PropertyBase

  /** The blacklist entries after the third, the same in both lists. */
  const BlacklistTail: seq<string> := ["*", ":", "?", "\"", "<", ">", "|", "#", "&", "!", "`"]

  /**
   * The blacklist as written. In single quotes `'\0'` is a backslash and a
   * zero, not the NUL character, and the single backslash before it has
   * already been replaced when it is searched for.
   */
  const WrittenBlacklist: seq<string> := ["/", "\\", "\\0"] + BlacklistTail

  /** The blacklist as evidently intended, with the NUL character in third place. */
  const IntendedBlacklist: seq<string> := ["/", "\\", "\0"] + BlacklistTail

  const TailChars: seq<char> := "*:?\"<>|#&!`"

  /** The characters the written blacklist replaces. */
  const WrittenChars: seq<char> := "/\\" + TailChars

  /** The characters the intended blacklist replaces. */
  const IntendedChars: seq<char> := "/\\\0" + TailChars

  /** Every character of `s` that is in `chars` replaced by `_`. */
  function Masked(s: string, chars: seq<char>): (r: string)
    ensures |r| == |s|
    ensures forall i :: 0 <= i < |s| ==> r[i] == if s[i] in chars then '_' else s[i]
  {
    seq(|s|, i requires 0 <= i < |s| => if s[i] in chars then '_' else s[i])
  }

  /** The one-character search strings' characters. */
  function Heads(bl: seq<string>): (cs: seq<char>)
    requires forall i :: 0 <= i < |bl| ==> |bl[i]| == 1
    ensures |cs| == |bl| && forall i :: 0 <= i < |bl| ==> bl[i] == [cs[i]]
  {
    seq(|bl|, i requires 0 <= i < |bl| => bl[i][0])
  }

  lemma MaskedTwice(s: string, a: seq<char>, b: seq<char>)
    ensures Masked(Masked(s, a), b) == Masked(s, a + b)
  {
  }

  lemma {:induction false} ReplaceEachAppend(s: string, a: seq<string>, b: seq<string>, rep: string)
    ensures ReplaceEach(s, a + b, rep) == ReplaceEach(ReplaceEach(s, a, rep), b, rep)
    decreases |a|
  {
    if |a| == 0 {
      assert a + b == b;
    } else {
      assert (a + b)[1..] == a[1..] + b;
      ReplaceEachAppend(ReplaceAll(s, a[0], rep), a[1..], b, rep);
    }
  }

  /** `str_replace` with one-character search strings and `_` replaces each of those characters. */
  lemma {:induction false} ReplaceEachSingles(s: string, bl: seq<string>)
    requires forall i :: 0 <= i < |bl| ==> |bl[i]| == 1
    ensures ReplaceEach(s, bl, "_") == Masked(s, Heads(bl))
    decreases |bl|
  {
    if |bl| == 0 {
      assert Masked(s, []) == s;
    } else {
      var c := bl[0][0];
      assert bl[0] == [c];
      ReplaceAllOneChar(s, c, '_');
      var t := ReplaceChar(s, c, '_');
      assert t == Masked(s, [c]);
      ReplaceEachSingles(t, bl[1..]);
      MaskedTwice(s, [c], Heads(bl[1..]));
      assert Heads(bl) == [c] + Heads(bl[1..]);
    }
  }

  /** The sanitised name: the masked name without its leading dots. */
  function Sanitized(chars: seq<char>, s: string): (r: string)
    ensures '_' !in chars ==> forall i :: 0 <= i < |r| ==> r[i] !in chars
    ensures |r| > 0 ==> r[0] != '.'
    ensures |r| <= |s| && r == Masked(s, chars)[|s| - |r|..]
    ensures forall i :: 0 <= i < |s| - |r| ==> Masked(s, chars)[i] == '.'
  {
    LTrim(Masked(s, chars), {'.'})
  }

  /** Sanitising twice is sanitising once, whenever `_` is not itself replaced. */
  lemma SanitizedIdempotent(chars: seq<char>, s: string)
    requires '_' !in chars
    ensures Sanitized(chars, Sanitized(chars, s)) == Sanitized(chars, s)
  {
    var u := Sanitized(chars, s);
    assert Masked(u, chars) == u;
  }

  function SanitizeWith(blacklist: seq<string>, s: string): string {
    LTrim(ReplaceEach(s, blacklist, "_"), {'.'})
  }

  /**
   * A blacklist whose third entry starts with a character replaced by an
   * earlier entry masks exactly the characters of the other entries: by the
   * time the third entry is searched for, it no longer occurs.
   */
  lemma MaskedWithDeadEntry(s: string, front: seq<string>, dead: string, rest: seq<string>, cs: seq<char>)
    requires forall i :: 0 <= i < |front| ==> |front[i]| == 1
    requires forall i :: 0 <= i < |rest| ==> |rest[i]| == 1
    requires |dead| > 0 && dead[0] in Heads(front) && dead[0] != '_'
    requires Heads(front) + Heads(rest) == cs
    ensures ReplaceEach(s, front + [dead] + rest, "_") == Masked(s, cs)
  {
    ReplaceEachAppend(s, front, [dead] + rest, "_");
    assert front + [dead] + rest == front + ([dead] + rest);
    ReplaceEachSingles(s, front);
    var t := Masked(s, Heads(front));
    assert dead[0] !in t;
    ReplaceAllAbsent(t, dead, "_");
    assert ([dead] + rest)[1..] == rest;
    ReplaceEachSingles(t, rest);
    MaskedTwice(s, Heads(front), Heads(rest));
  }

  lemma TailShape()
    ensures forall i :: 0 <= i < |BlacklistTail| ==> |BlacklistTail[i]| == 1
    ensures Heads(BlacklistTail) == TailChars
  {
  }

  lemma HeadsAppend(a: seq<string>, b: seq<string>)
    requires forall i :: 0 <= i < |a| ==> |a[i]| == 1
    requires forall i :: 0 <= i < |b| ==> |b[i]| == 1
    ensures Heads(a + b) == Heads(a) + Heads(b)
  {
  }

  lemma TailCharsExclude()
    ensures '_' !in TailChars && '.' !in TailChars && '\0' !in TailChars && '\\' !in TailChars
  {
  }

  /** The characters each blacklist replaces: `_` and `.` are never among them, NUL only in the intended one. */
  lemma BlacklistChars()
    ensures '_' !in WrittenChars && '_' !in IntendedChars
    ensures '.' !in WrittenChars && '.' !in IntendedChars
    ensures '\0' !in WrittenChars && '\0' in IntendedChars
    ensures forall c :: c in WrittenChars ==> c in IntendedChars
  {
    TailCharsExclude();
  }

  lemma WrittenBlacklistMasks(s: string)
    ensures ReplaceEach(s, WrittenBlacklist, "_") == Masked(s, WrittenChars)
  {
    TailShape();
    assert WrittenBlacklist == ["/", "\\"] + ["\\0"] + BlacklistTail;
    assert Heads(["/", "\\"]) == "/\\";
    MaskedWithDeadEntry(s, ["/", "\\"], "\\0", BlacklistTail, WrittenChars);
  }

  lemma IntendedBlacklistMasks(s: string)
    ensures ReplaceEach(s, IntendedBlacklist, "_") == Masked(s, IntendedChars)
  {
    TailShape();
    HeadsAppend(["/", "\\", "\0"], BlacklistTail);
    assert Heads(["/", "\\", "\0"]) == "/\\\0";
    ReplaceEachSingles(s, IntendedBlacklist);
  }

  /**
   * `sanitizeFilename($name)` as written: each blacklisted character becomes
   * `_` and leading dots are dropped; a NUL character is kept.
   */
  function SanitizeFilenameAsWritten(s: string): (r: string)
    ensures r == Sanitized(WrittenChars, s)
  {
    WrittenBlacklistMasks(s);
    SanitizeWith(WrittenBlacklist, s)
  }

  /** `sanitizeFilename($name)` as evidently intended: NUL is replaced as well. */
  function SanitizeFilename(s: string): (r: string)
    ensures r == Sanitized(IntendedChars, s)
    ensures forall i :: 0 <= i < |r| ==> r[i] != '\0' && r[i] !in WrittenChars
  {
    IntendedBlacklistMasks(s);
    BlacklistChars();
    SanitizeWith(IntendedBlacklist, s)
  }

  /** Both sanitisers are idempotent. */
  lemma SanitizeFilenameIdempotent(s: string)
    ensures SanitizeFilenameAsWritten(SanitizeFilenameAsWritten(s)) == SanitizeFilenameAsWritten(s)
    ensures SanitizeFilename(SanitizeFilename(s)) == SanitizeFilename(s)
  {
    BlacklistChars();
    SanitizedIdempotent(WrittenChars, s);
    SanitizedIdempotent(IntendedChars, s);
  }

  /**
   * The written blacklist lets NUL bytes through, where the intended one
   * replaces them: in a name that does not start with a dot, a NUL stays
   * where it was.
   */
  lemma NulIsKept(s: string, k: nat)
    requires k < |s| && s[k] == '\0' && s[0] != '.'
    ensures |SanitizeFilenameAsWritten(s)| == |s| && SanitizeFilenameAsWritten(s)[k] == '\0'
    ensures '\0' !in SanitizeFilename(s)
  {
    BlacklistChars();
    var m := Masked(s, WrittenChars);
    assert m[0] != '.';
    var r := SanitizeFilenameAsWritten(s);
    assert r == m;
  }

  /**
   * `rtrim($path, '/') . '/'`: the upload path ends with exactly one `/`,
   * after the argument with its trailing slashes removed.
   */
  function UploadPathOf(p: string): (r: string)
    ensures |r| >= 1 && r[|r| - 1] == '/'
    ensures |r| == 1 || r[|r| - 2] != '/'
    ensures |r| - 1 <= |p| && r[..|r| - 1] == p[..|r| - 1]
    ensures forall i :: |r| - 1 <= i < |p| ==> p[i] == '/'
  {
    RTrim(p, {'/'}) + "/"
  }

  lemma UploadPathIdempotent(p: string)
    ensures UploadPathOf(UploadPathOf(p)) == UploadPathOf(p)
  {
    var t := RTrim(p, {'/'});
    assert (t + "/")[..|t|] == t;
    assert RTrim(t, {'/'}) == t;
  }

  /** The part of `s` after its last `c`. */
  function AfterLast(s: string, c: char): (r: string)
    ensures |r| <= |s| && r == s[|s| - |r|..]
    ensures c !in r
    ensures |r| < |s| ==> s[|s| - |r| - 1] == c
    decreases |s|
  {
    if |s| == 0 || s[|s| - 1] == c then ""
    else
      var r := AfterLast(s[..|s| - 1], c);
      assert s[..|s| - 1][|s| - 1 - |r|..] + [s[|s| - 1]] == s[|s| - |r| - 1..];
      r + [s[|s| - 1]]
  }

  /** `basename($path)` on a Unix system: the last component, trailing slashes ignored. */
  function Basename(path: string): (r: string)
    ensures '/' !in r
    ensures '/' !in path ==> r == path
  {
    var t := RTrim(path, {'/'});
    if '/' !in path then
      assert t == path;
      AfterLast(t, '/')
    else AfterLast(t, '/')
  }

  /** The index of the last `c` in `s`, if any. */
  function LastIndex(s: string, c: char): (k: Option<nat>)
    ensures k.None? <==> c !in s
    ensures k.Some? ==> k.value < |s| && s[k.value] == c && c !in s[k.value + 1..]
    decreases |s|
  {
    if |s| == 0 then None
    else if s[|s| - 1] == c then Some(|s| - 1)
    else
      var k := LastIndex(s[..|s| - 1], c);
      assert forall x :: x in s <==> x in s[..|s| - 1] || x == s[|s| - 1];
      if k.Some? then
        assert s[k.value + 1..] == s[..|s| - 1][k.value + 1..] + [s[|s| - 1]];
        k
      else k
  }

  /** `pathinfo($path)`'s `filename` and `extension` keys. */
  datatype PathInfo = PathInfo(filename: string, extension: Option<string>)

  lemma NotInSlice(s: string, c: char, i: nat, j: nat)
    requires i <= j <= |s| && c !in s
    ensures c !in s[i..j]
  {
    forall k | 0 <= k < j - i ensures s[i..j][k] != c {
      assert s[i..j][k] == s[i + k];
    }
  }

  function Pathinfo(path: string): (p: PathInfo)
    ensures '/' !in p.filename
    ensures p.extension.Some? ==> '/' !in p.extension.value && '.' !in p.extension.value
    ensures p.extension.None? ==> p.filename == Basename(path)
    ensures p.extension.Some? ==> Basename(path) == p.filename + "." + p.extension.value
  {
    var b := Basename(path);
    match LastIndex(b, '.')
    case None => PathInfo(b, None)
    case Some(k) =>
      var f := b[..k];
      var e := b[k + 1..];
      NotInSlice(b, '/', 0, k);
      NotInSlice(b, '/', k + 1, |b|);
      assert b == f + "." + e;
      PathInfo(f, Some(e))
  }

  /** The name a colliding upload is renamed to: `<filename>-<uid>`, then `.<extension>` when that is truthy. */
  function RenamedInfo(info: PathInfo, uid: string): (r: string)
    ensures var n := |info.filename| + 1 + |uid|;
      |r| >= n && r[..n] == info.filename + "-" + uid
    ensures var n := |info.filename| + 1 + |uid|;
      if info.extension.Some? && Truthy(Str(info.extension.value)) then r[n..] == "." + info.extension.value
      else |r| == n
  {
    var stem := info.filename + "-" + uid;
    if info.extension.Some? && Truthy(Str(info.extension.value)) then
      assert (stem + "." + info.extension.value)[..|stem|] == stem;
      stem + "." + info.extension.value
    else stem
  }

  /** The renamed name keeps the old stem followed by a hyphen, and has no `/` when `uid` has none. */
  function Renamed(name: string, uid: string): (r: string)
    ensures var f := Pathinfo(name).filename;
      |r| > |f| && r[..|f|] == f && r[|f|] == '-'
    ensures '/' !in uid ==> '/' !in r
  {
    var info := Pathinfo(name);
    RenamedStem(info, uid);
    if '/' !in uid then RenamedNoSlash(info, uid); RenamedInfo(info, uid) else RenamedInfo(info, uid)
  }

  /** The renamed name starts with the file name and a hyphen. */
  lemma RenamedStem(info: PathInfo, uid: string)
    ensures var r := RenamedInfo(info, uid);
      |r| > |info.filename| && r[..|info.filename|] == info.filename && r[|info.filename|] == '-'
  {
    var r := RenamedInfo(info, uid);
    var n := |info.filename| + 1 + |uid|;
    assert r[..|info.filename|] == r[..n][..|info.filename|];
    assert r[|info.filename|] == r[..n][|info.filename|];
  }

  /** The renamed name has no `/` when its parts have none. */
  lemma RenamedNoSlash(info: PathInfo, uid: string)
    requires '/' !in info.filename && '/' !in uid
    requires info.extension.Some? ==> '/' !in info.extension.value
    ensures '/' !in RenamedInfo(info, uid)
  {
  }

  /** A renamed upload never keeps its original name (`uniqid()` has no `/`). */
  lemma RenamedDiffers(name: string, uid: string)
    requires '/' !in uid
    ensures Renamed(name, uid) != name
  {
    var info := Pathinfo(name);
    var r := Renamed(name, uid);
    if '/' in name {
      assert '/' !in r;
    } else if info.extension.Some? {
      assert name == info.filename + "." + info.extension.value;
      assert name[|info.filename|] == '.';
      assert r[|info.filename|] == '-';
    } else {
      assert name == info.filename;
      assert |r| > |name|;
    }
  }

  /**
   * `generateFilename()`: the label, a space and the date; `.<extension>`
   * follows only when the extension is truthy.
   */
  function GenerateFilename(title: string, now: string, ext: string): (r: string)
    ensures |r| >= |title| + 1 + |now| && r[..|title| + 1 + |now|] == title + " " + now
    ensures !Truthy(Str(ext)) ==> r == title + " " + now
    ensures Truthy(Str(ext)) ==> r[|title| + 1 + |now|..] == "." + ext
  {
    var filename := title + " " + now;
    if Truthy(Str(ext)) then filename + "." + ext else filename
  }

  /**
   * The name `uploadTarget` starts from: the given name sanitised as
   * written, or a generated one. A sanitised name is no longer than the
   * given one, has no `/` and does not start with `.`.
   */
  function ChosenFilename(name: Option<string>, title: string, now: string, ext: string): (r: string)
    ensures name.Some? && Truthy(Str(name.value)) ==>
      r == SanitizeFilenameAsWritten(name.value) && |r| <= |name.value| && '/' !in r && (|r| > 0 ==> r[0] != '.')
    ensures !(name.Some? && Truthy(Str(name.value))) ==> |r| >= |title| + 1 + |now| && r[..|title| + 1 + |now|] == title + " " + now
  {
    BlacklistChars();
    if name.Some? && Truthy(Str(name.value)) then SanitizeFilenameAsWritten(name.value) else GenerateFilename(title, now, ext)
  }

  /** As `ChosenFilename`, with the intended sanitiser: no NUL character either. */
  function ChosenFilenameIntended(name: Option<string>, title: string, now: string, ext: string): (r: string)
    ensures name.Some? && Truthy(Str(name.value)) ==>
      r == SanitizeFilename(name.value) && |r| <= |name.value| && '/' !in r && '\0' !in r
    ensures !(name.Some? && Truthy(Str(name.value))) ==> r == ChosenFilename(name, title, now, ext)
  {
    BlacklistChars();
    if name.Some? && Truthy(Str(name.value)) then SanitizeFilename(name.value) else GenerateFilename(title, now, ext)
  }

  /** `fileExists($file)`: the case-insensitive search is commented out, so only exact paths exist. */
  function FileExists(file: string, caseInsensitive: bool, existing: set<string>): (b: bool)
    ensures b <==> file in existing
  {
    if file in existing then true
    else if !caseInsensitive then false
    else false
  }

  /** `validateAcceptedMimetypes()`: the known mimetype, or the detected one, must be in a non-empty list. */
  function MimetypeCheck(accepted: seq<string>, mimetype: string, val: Value, sniff: Value -> string): (r: Verdict)
    ensures r.Fail? ==> r.code == "acceptedMimetypes"
    ensures |accepted| == 0 ==> r == Pass
    ensures Truthy(Str(mimetype)) && |accepted| > 0 ==> (r == Pass <==> mimetype in accepted)
    ensures !Truthy(Str(mimetype)) && !Truthy(val) ==> r == Pass
    ensures !Truthy(Str(mimetype)) && Truthy(val) && |accepted| > 0 ==> (r == Pass <==> sniff(val) in accepted)
  {
    if |accepted| == 0 then Pass
    else if !Truthy(Str(mimetype)) && !Truthy(val) then Pass
    else
      var m := if Truthy(Str(mimetype)) then mimetype else sniff(val);
      if m in accepted then Pass else Fail("acceptedMimetypes")
  }

  /** `filesize()`: the cached size when truthy, else the size on disk of the file the value names, else 0. */
  function SizeOf(cached: int, val: Value, disk: Value -> Option<int>): (n: int)
    ensures cached != 0 ==> n == cached
    ensures cached == 0 && !Truthy(val) ==> n == 0
    ensures cached == 0 && Truthy(val) ==> n == (if disk(val).Some? then disk(val).value else 0)
  {
    if cached != 0 then cached
    else if !Truthy(val) then 0
    else match disk(val) case None => 0 case Some(s) => s
  }

  /** `validateMaxFilesize()`: passes under a zero maximum; otherwise the size must not exceed it. */
  function MaxFilesizeCheck(max: int, size: int): (r: Verdict)
    ensures r.Fail? ==> r.code == "maxFilesize"
    ensures r.Fail? <==> max != 0 && size > max
  {
    if max == 0 then Pass else if size <= max then Pass else Fail("maxFilesize")
  }

  const FileValidationMethods: seq<string> := BaseValidationMethods + ["accepted_mimetypes", "max_filesize"]

  /** The file-specific fields of a file property, as one value. */
  datatype FileState = FileState(publicAccess: bool, uploadPath: string, overwrite: bool,
                                 acceptedMimetypes: seq<string>, maxFilesize: int,
                                 mimetype: string, filesize: int)

  class FileProperty {
    const base: AbstractProperty
    var publicAccess: bool
    var uploadPath: string
    var overwrite: bool
    var acceptedMimetypes: seq<string>
    var maxFilesize: int
    /** The known mimetype; null and `''` behave alike. */
    var mimetype: string
    /** The known size in bytes; null and 0 behave alike. */
    var filesize: int

    function Snapshot(): FileState
      reads this
    {
      FileState(publicAccess, uploadPath, overwrite, acceptedMimetypes, maxFilesize, mimetype, filesize)
    }

    constructor ()
      ensures fresh(base)
      ensures base.Snapshot() == State("", Null, None, false, false, false, None, false, false, true,
                                       true, true, "", "", [])
      ensures Snapshot() == FileState(false, "uploads/", false, [], 134220000, "", 0)
    {
      base := new AbstractProperty();
      publicAccess, uploadPath, overwrite := false, "uploads/", false;
      acceptedMimetypes, maxFilesize := [], 134220000;
      mimetype, filesize := "", 0;
    }

    method SetPublicAccess(b: Value)
      modifies this
      ensures Snapshot() == old(Snapshot()).(publicAccess := Truthy(b))
    {
      publicAccess := Truthy(b);
    }

    method SetOverwrite(b: Value)
      modifies this
      ensures Snapshot() == old(Snapshot()).(overwrite := Truthy(b))
    {
      overwrite := Truthy(b);
    }

    /** `setUploadPath($p)`: only a string is accepted; it is stored with exactly one trailing `/`. */
    method SetUploadPath(p: Value) returns (r: Result<()>)
      modifies this
      ensures r.Ok? <==> p.Str?
      ensures Snapshot() == if p.Str? then old(Snapshot()).(uploadPath := UploadPathOf(p.s)) else old(Snapshot())
    {
      if !p.Str? {
        return Err(InvalidArgumentException);
      }
      uploadPath := RTrim(p.s, {'/'}) + "/";
      return Ok(());
    }

    method SetAcceptedMimetypes(ms: seq<string>)
      modifies this
      ensures Snapshot() == old(Snapshot()).(acceptedMimetypes := ms)
    {
      acceptedMimetypes := ms;
    }

    /** `setMaxFilesize($n)`: only an integer is accepted. */
    method SetMaxFilesize(n: Value) returns (r: Result<()>)
      modifies this
      ensures r.Ok? <==> n.Int?
      ensures Snapshot() == if n.Int? then old(Snapshot()).(maxFilesize := n.i) else old(Snapshot())
    {
      if !n.Int? {
        return Err(InvalidArgumentException);
      }
      maxFilesize := n.i;
      return Ok(());
    }

    /** `setMimetype($m)`: only a string is accepted. */
    method SetMimetype(m: Value) returns (r: Result<()>)
      modifies this
      ensures r.Ok? <==> m.Str?
      ensures Snapshot() == if m.Str? then old(Snapshot()).(mimetype := m.s) else old(Snapshot())
    {
      if !m.Str? {
        return Err(InvalidArgumentException);
      }
      mimetype := m.s;
      return Ok(());
    }

    /** `setFilesize($n)`: only an integer is accepted. */
    method SetFilesize(n: Value) returns (r: Result<()>)
      modifies this
      ensures r.Ok? <==> n.Int?
      ensures Snapshot() == if n.Int? then old(Snapshot()).(filesize := n.i) else old(Snapshot())
    {
      if !n.Int? {
        return Err(InvalidArgumentException);
      }
      filesize := n.i;
      return Ok(());
    }

    /**
     * `mimetype()`: the known mimetype; when it is falsy and the value
     * names a file, the detected mimetype, which is then remembered.
     */
    method Mimetype(sniff: Value -> string) returns (m: string)
      modifies this
      ensures Truthy(Str(old(mimetype))) ==> m == old(mimetype)
      ensures !Truthy(Str(old(mimetype))) && !Truthy(base.val) ==> m == ""
      ensures !Truthy(Str(old(mimetype))) && Truthy(base.val) ==> m == sniff(base.val)
      ensures Snapshot() == if !Truthy(Str(old(mimetype))) && Truthy(base.val)
                            then old(Snapshot()).(mimetype := m) else old(Snapshot())
    {
      if !Truthy(Str(mimetype)) {
        if !Truthy(base.val) {
          return "";
        }
        mimetype := sniff(base.val);
      }
      m := mimetype;
    }

    /**
     * `filesize()`: the known size; when it is 0, the size on disk of the
     * file the value names, remembered when that file can be read.
     */
    method Filesize(disk: Value -> Option<int>) returns (n: int)
      modifies this
      ensures n == SizeOf(old(filesize), base.val, disk)
      ensures Snapshot() == if old(filesize) == 0 && Truthy(base.val) && disk(base.val).Some?
                            then old(Snapshot()).(filesize := n) else old(Snapshot())
    {
      if filesize == 0 {
        if !Truthy(base.val) || disk(base.val).None? {
          return 0;
        }
        filesize := disk(base.val).value;
      }
      n := filesize;
    }

    /** `validateAcceptedMimetypes()`: the `foreach` over the list, stopping at the first match. */
    method ValidateAcceptedMimetypes(sniff: Value -> string) returns (v: Verdict)
      ensures v == MimetypeCheck(acceptedMimetypes, mimetype, base.val, sniff)
    {
      if |acceptedMimetypes| == 0 {
        return Pass;
      }
      var m: string;
      if Truthy(Str(mimetype)) {
        m := mimetype;
      } else {
        if !Truthy(base.val) {
          return Pass;
        }
        m := sniff(base.val);
      }
      var valid := false;
      var i := 0;
      while i < |acceptedMimetypes|
        invariant 0 <= i <= |acceptedMimetypes|
        invariant !valid
        invariant forall j :: 0 <= j < i ==> acceptedMimetypes[j] != m
      {
        if acceptedMimetypes[i] == m {
          valid := true;
          break;
        }
        i := i + 1;
      }
      v := if valid then Pass else Fail("acceptedMimetypes");
    }

    /** `validateMaxFilesize()`: reads the size through `filesize()`, which may remember it. */
    method ValidateMaxFilesize(disk: Value -> Option<int>) returns (v: Verdict)
      modifies this
      ensures v == MaxFilesizeCheck(old(maxFilesize), SizeOf(old(filesize), base.val, disk))
      ensures Snapshot() == if old(maxFilesize) != 0 && old(filesize) == 0 && Truthy(base.val) && disk(base.val).Some?
                            then old(Snapshot()).(filesize := disk(base.val).value) else old(Snapshot())
    {
      if maxFilesize == 0 {
        return Pass;
      }
      var size := Filesize(disk);
      v := if size <= maxFilesize then Pass else Fail("maxFilesize");
    }

    function GenerateExtension(): (e: string)
      ensures !Truthy(Str(e))
    {
      ""
    }

    /**
     * The part of `uploadTarget($name)` after the name is chosen: an
     * unwritable directory throws; a target that exists is kept only when
     * overwriting, otherwise the name is renamed with `uid`.
     */
    method PlaceUpload(filename: string, dir: string, writable: bool, existing: set<string>, uid: string)
      returns (r: Result<string>)
      ensures r == if !writable then Err(PlainException)
                   else if dir + filename !in existing || overwrite then Ok(dir + filename)
                   else Ok(dir + Renamed(filename, uid))
    {
      if !writable {
        return Err(PlainException);
      }
      var name := filename;
      var target := dir + name;
      if FileExists(target, true, existing) {
        if overwrite {
          return Ok(target);
        }
        var info := Pathinfo(name);
        name := info.filename + "-" + uid;
        if info.extension.Some? && Truthy(Str(info.extension.value)) {
          name := name + "." + info.extension.value;
        }
        target := dir + name;
      }
      return Ok(target);
    }

    /**
     * `uploadTarget($name)` as written: the upload directory followed by the
     * given name, sanitised by the written blacklist (a NUL is kept), or by
     * a generated name.
     */
    method UploadTarget(name: Option<string>, basePath: string, writable: bool, existing: set<string>,
                        now: string, uid: string) returns (r: Result<string>)
      ensures var dir := basePath + uploadPath;
        var f := ChosenFilename(name, base.Label(), now, "");
        r == if !writable then Err(PlainException)
             else if dir + f !in existing || overwrite then Ok(dir + f)
             else Ok(dir + Renamed(f, uid))
    {
      var filename := if name.Some? && Truthy(Str(name.value)) then SanitizeFilenameAsWritten(name.value)
                      else GenerateFilename(base.Label(), now, GenerateExtension());
      r := PlaceUpload(filename, basePath + uploadPath, writable, existing, uid);
    }

    /** `uploadTarget($name)` with the intended sanitiser: the target's name has no NUL. */
    method UploadTargetIntended(name: Option<string>, basePath: string, writable: bool, existing: set<string>,
                                now: string, uid: string) returns (r: Result<string>)
      ensures var dir := basePath + uploadPath;
        var f := ChosenFilenameIntended(name, base.Label(), now, "");
        r == if !writable then Err(PlainException)
             else if dir + f !in existing || overwrite then Ok(dir + f)
             else Ok(dir + Renamed(f, uid))
    {
      var filename := if name.Some? && Truthy(Str(name.value)) then SanitizeFilename(name.value)
                      else GenerateFilename(base.Label(), now, GenerateExtension());
      r := PlaceUpload(filename, basePath + uploadPath, writable, existing, uid);
    }

    /** `validationMethods()`: the base checks, then the mimetype and size checks. */
    function ValidationMethods(): (r: seq<string>)
      reads this, base
      ensures |r| == |base.ValidationMethods()| + 2
      ensures r[..|base.ValidationMethods()|] == base.ValidationMethods()
      ensures r[|base.ValidationMethods()|..] == ["accepted_mimetypes", "max_filesize"]
    {
      base.ValidationMethods() + ["accepted_mimetypes", "max_filesize"]
    }

    /** `sqlType()`: TEXT for several files, otherwise one path in VARCHAR(255). */
    function SqlType(): (t: string)
      reads this, base
      ensures t == if base.multiple then "TEXT" else "VARCHAR(255)"
    {
      if base.multiple then "TEXT" else "VARCHAR(255)"
    }
  }

  /**
   * An upload never silently replaces an existing file unless overwriting
   * is on: the target either does not exist or differs from the first choice.
   */
  lemma UploadTargetAvoidsCollision(dir: string, f: string, uid: string, existing: set<string>, overwrite: bool)
    requires '/' !in uid
    ensures var target := if dir + f !in existing || overwrite then dir + f else dir + Renamed(f, uid);
      target == dir + f ==> dir + f !in existing || overwrite
  {
    RenamedDiffers(f, uid);
    assert (dir + Renamed(f, uid))[|dir|..] == Renamed(f, uid);
    assert (dir + f)[|dir|..] == f;
  }
}
