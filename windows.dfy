/** Windows support: executables are recognised by their `exe` extension, so
    commands get the extension appended and only such files may be marked
    executable. Paths are their text; the file name, stem and extension
    follow the rules of Rust's `std::path`. */
module Windows {
  import opened Results

  /** The platform's executable extension, compared case-sensitively. */
  const EXE := "exe"
  const NotExecutable := "non-exe files cannot be executable"

  /** Both separators Windows accepts. */
  predicate IsSep(c: char)
  {
    c == '/' || c == '\\'
  }

  /** Whether the path ends in a `.` component: a dot that is the whole
      path or follows a separator. */
  predicate EndsInCurDir(s: string)
  {
    s != [] && s[|s| - 1] == '.' && (|s| == 1 || IsSep(s[|s| - 2]))
  }

  /** Whether everything from position `n` on is a tail that names nothing:
      peeled from the end, each character is a separator or the dot of a `.`
      component. */
  predicate DroppedTail(s: string, n: nat)
    decreases |s|
  {
    |s| <= n || ((IsSep(s[|s| - 1]) || EndsInCurDir(s)) && DroppedTail(s[..|s| - 1], n))
  }

  /** The path without the tail that names nothing: the separators and the
      `.` components it ends in, which Rust's path components skip. */
  function TrimTail(path: string): (r: string)
    ensures |r| <= |path| && r == path[..|r|]
    ensures forall i :: |r| <= i < |path| ==> IsSep(path[i]) || path[i] == '.'
    ensures DroppedTail(path, |r|)
    ensures r == [] || (!IsSep(r[|r| - 1]) && !EndsInCurDir(r))
  {
    if path != [] && (IsSep(path[|path| - 1]) || EndsInCurDir(path)) then TrimTail(path[..|path| - 1]) else path
  }

  /** Where the last component starts: just after the last separator. */
  function NameStart(s: string): (k: nat)
    ensures k <= |s|
    ensures forall i :: k <= i < |s| ==> !IsSep(s[i])
    ensures k == 0 || IsSep(s[k - 1])
  {
    if s == [] || IsSep(s[|s| - 1]) then |s| else NameStart(s[..|s| - 1])
  }

  /** The final component once the trailing separators and `.` components
      are skipped, unless the path ends in no name at all (empty, a root, only
      `.` components, or `..`). */
  function FileName(path: string): (r: Option<string>)
    ensures r.Some? ==> r.value != [] && r.value != "." && r.value != ".."
    ensures r.Some? ==> forall i :: 0 <= i < |r.value| ==> !IsSep(r.value[i])
  {
    var t := TrimTail(path);
    var k := NameStart(t);
    var name := t[k..];
    assert name == "." ==> EndsInCurDir(t);
    if name == "" || name == ".." then None else Some(name)
  }

  /** The position of the last dot in a name. */
  function LastDot(name: string): (r: Option<nat>)
    ensures r.Some? ==> r.value < |name| && name[r.value] == '.'
    ensures r.Some? ==> forall i :: r.value < i < |name| ==> name[i] != '.'
    ensures r.None? ==> forall i :: 0 <= i < |name| ==> name[i] != '.'
  {
    if name == [] then None
    else if name[|name| - 1] == '.' then Some(|name| - 1)
    else LastDot(name[..|name| - 1])
  }

  /** Splits a file name into stem and extension at its last dot; `..`, a
      name without a dot and a name whose only dot leads it have no
      extension. */
  function SplitFileAtDot(name: string): (r: (string, Option<string>))
    ensures r.1.None? ==> r.0 == name
    ensures r.1.Some? ==> name == r.0 + "." + r.1.value && r.0 != [] && '.' !in r.1.value
  {
    if name == ".." then (name, None)
    else match LastDot(name)
      case None => (name, None)
      case Some(i) =>
        if i == 0 then (name, None)
        else
          assert name == name[..i] + "." + name[i + 1..];
          (name[..i], Some(name[i + 1..]))
  }

  /** A name has an extension exactly when it is not `..` and has a dot
      after its first character: a leading dot, as in `.bashrc`, starts the
      stem. */
  lemma HasExtensionIff(name: string)
    ensures SplitFileAtDot(name).1.Some? <==> name != ".." && exists i :: 0 < i < |name| && name[i] == '.'
  {
    if name != ".." && exists i :: 0 < i < |name| && name[i] == '.' {
      var i :| 0 < i < |name| && name[i] == '.';
      assert LastDot(name).Some? && LastDot(name).value >= i;
    }
  }

  /** `Path::extension`: what follows the last dot of the file name. */
  function Extension(path: string): (r: Option<string>)
    ensures r.Some? ==> FileName(path).Some? && '.' !in r.value
  {
    match FileName(path)
      case None => None
      case Some(name) => SplitFileAtDot(name).1
  }

  /** `Path::file_stem`: the file name without its extension, so that the
      name is the stem, or the stem, a dot and the extension. */
  function FileStem(path: string): (r: Option<string>)
    ensures r.Some? <==> FileName(path).Some?
    ensures r.Some? ==> r.value != []
    ensures r.Some? ==>
      FileName(path).value == r.value + (if Extension(path).Some? then "." + Extension(path).value else "")
  {
    match FileName(path)
      case None => None
      case Some(name) => Some(SplitFileAtDot(name).0)
  }

  /** Everything before the file name: a prefix of the path that is empty or
      ends in a separator. */
  function Parent(path: string): (r: string)
    ensures r == [] || IsSep(r[|r| - 1])
  {
    var t := TrimTail(path);
    t[..NameStart(t)]
  }

  /** Replaces the extension: the path is cut right after the file stem and
      the new extension appended after a dot (nothing is appended for an
      empty one). A path without a file name is left alone. */
  function SetExtension(path: string, ext: string): (r: string)
    ensures FileName(path).None? ==> r == path
    ensures FileName(path).Some? ==> Parent(path) + FileStem(path).value <= r
    ensures FileName(path).Some? && ext != "" ==>
      |r| > |ext| && r[|r| - |ext| - 1] == '.' && r[|r| - |ext|..] == ext
  {
    match FileName(path)
      case None => path
      case Some(name) => Parent(path) + SplitFileAtDot(name).0 + (if ext == "" then "" else "." + ext)
  }

  /** `exe_path`: a path that already has the `exe` extension is kept, any
      other gets it set. The result names an `exe` exactly when the path
      names a file, under the same parent and with the same stem. */
  function ExePath(path: string): (r: string)
    ensures Extension(path) == Some(EXE) || FileName(path).None? ==> r == path
    ensures Extension(r) == Some(EXE) <==> FileName(path).Some?
    ensures FileStem(r) == FileStem(path) && Parent(r) == Parent(path)
  {
    if Extension(path) == Some(EXE) then path
    else if FileName(path).None? then SetExtension(path, EXE)
    else
      SetExtensionShape(path, EXE);
      SetExtension(path, EXE)
  }

  /** `command`: the path of the executable a command names, which names an
      `exe` exactly when the command names a file. */
  function Command(base: string): (r: string)
    ensures Extension(r) == Some(EXE) <==> FileName(base).Some?
    ensures FileStem(r) == FileStem(base) && Parent(r) == Parent(base)
  {
    ExePath(base)
  }

  /** `add_mode`: marking a file executable is refused unless it has the
      `exe` extension; every other mode change is accepted. */
  function AddMode(path: string, executable: bool): (r: Result<()>)
    ensures r.Err? <==> executable && Extension(path) != Some(EXE)
    ensures r.Err? ==> r.error == NotExecutable
  {
    if executable && Extension(path) != Some(EXE) then Err(NotExecutable) else Ok(())
  }

  /** A path that ends in a name other than `.` without separators, after a
      prefix that is empty or ends in a separator, has no tail to skip. */
  lemma {:induction false} TrimTailJoined(dir: string, name: string)
    requires dir == [] || IsSep(dir[|dir| - 1])
    requires name != [] && name != "." && forall i :: 0 <= i < |name| ==> !IsSep(name[i])
    ensures TrimTail(dir + name) == dir + name
  {
    var s := dir + name;
    assert s[|s| - 1] == name[|name| - 1];
    if |name| == 1 {
      assert name == [name[0]];
    } else {
      assert s[|s| - 2] == name[|name| - 2];
    }
    assert !EndsInCurDir(s);
  }

  /** In such a path the last component starts right after the prefix. */
  lemma {:induction false} NameStartJoined(dir: string, name: string)
    requires dir == [] || IsSep(dir[|dir| - 1])
    requires name != [] && forall i :: 0 <= i < |name| ==> !IsSep(name[i])
    ensures NameStart(dir + name) == |dir|
  {
    var s := dir + name;
    assert dir != [] ==> IsSep(s[|dir| - 1]);
    assert forall i :: |dir| <= i < |s| ==> s[i] == name[i - |dir|];
    var k := NameStart(s);
    if k != |dir| {
      assert false;
    }
  }

  /** Both facts together. */
  lemma NameOfJoined(dir: string, name: string)
    requires dir == [] || IsSep(dir[|dir| - 1])
    requires name != [] && name != "." && forall i :: 0 <= i < |name| ==> !IsSep(name[i])
    ensures TrimTail(dir + name) == dir + name
    ensures NameStart(dir + name) == |dir|
  {
    TrimTailJoined(dir, name);
    NameStartJoined(dir, name);
  }

  /** The parent and file name of a path built from a directory part and a
      name part. */
  lemma JoinedParts(dir: string, name: string)
    requires dir == [] || IsSep(dir[|dir| - 1])
    requires name != [] && name != "." && name != ".."
    requires forall i :: 0 <= i < |name| ==> !IsSep(name[i])
    ensures FileName(dir + name) == Some(name)
    ensures Parent(dir + name) == dir
  {
    NameOfJoined(dir, name);
    assert (dir + name)[|dir|..] == name;
  }

  /** Setting an extension on a path with a file name keeps its parent,
      which is empty or ends in a separator. */
  lemma ParentAndName(path: string, ext: string)
    requires FileName(path).Some? && ext != []
    ensures SetExtension(path, ext) == Parent(path) + (SplitFileAtDot(FileName(path).value).0 + "." + ext)
    ensures Parent(path) == [] || IsSep(Parent(path)[|Parent(path)| - 1])
  {
    var stem := SplitFileAtDot(FileName(path).value).0;
    assert Parent(path) + stem + ("." + ext) == Parent(path) + (stem + "." + ext);
  }

  /** `stem.ext` has no separator when neither the name the stem came from
      nor the extension has one. */
  lemma {:induction false} NoSepInNewName(name: string, stem: string, ext: string)
    requires |stem| <= |name| && stem == name[..|stem|]
    requires forall i :: 0 <= i < |name| ==> !IsSep(name[i])
    requires forall i :: 0 <= i < |ext| ==> !IsSep(ext[i])
    ensures forall i :: 0 <= i < |stem + "." + ext| ==> !IsSep((stem + "." + ext)[i])
  {
    var newName := stem + "." + ext;
    forall i | 0 <= i < |newName|
      ensures !IsSep(newName[i])
    {
      if i < |stem| {
        assert newName[i] == name[i];
      } else if i > |stem| {
        assert newName[i] == ext[i - |stem| - 1];
      }
    }
  }

  /** The stem of a name is a non-empty prefix of it. */
  lemma StemOfName(name: string)
    requires name != []
    ensures var stem := SplitFileAtDot(name).0;
      stem != [] && |stem| <= |name| && stem == name[..|stem|]
  {
    var (stem, ext) := SplitFileAtDot(name);
    if ext.Some? {
      assert name == stem + ("." + ext.value);
    }
  }

  /** Setting a non-empty extension on a path with a file name yields the
      file name `stem.ext`, under the same parent. */
  lemma {:induction false} SetExtensionShape(path: string, ext: string)
    requires FileName(path).Some? && ext != [] && '.' !in ext
    requires forall i :: 0 <= i < |ext| ==> !IsSep(ext[i])
    ensures var stem := SplitFileAtDot(FileName(path).value).0;
      && SetExtension(path, ext) == Parent(path) + (stem + "." + ext)
      && FileName(SetExtension(path, ext)) == Some(stem + "." + ext)
      && Parent(SetExtension(path, ext)) == Parent(path)
      && Extension(SetExtension(path, ext)) == Some(ext)
      && FileStem(SetExtension(path, ext)) == FileStem(path)
  {
    var name := FileName(path).value;
    var stem := SplitFileAtDot(name).0;
    var dir := Parent(path);
    StemOfName(name);
    var newName := stem + "." + ext;
    NoSepInNewName(name, stem, ext);
    ParentAndName(path, ext);
    NewNameSplits(stem, ext);
    JoinedParts(dir, newName);
  }

  /** Appending `.ext` (no dot inside `ext`) to a non-empty stem gives a name
      that splits back into the two. */
  lemma {:induction false} NewNameSplits(stem: string, ext: string)
    requires stem != [] && ext != [] && '.' !in ext
    ensures stem + "." + ext != ".."
    ensures SplitFileAtDot(stem + "." + ext) == (stem, Some(ext))
  {
    var name := stem + "." + ext;
    assert name[|stem|] == '.';
    forall i | |stem| < i < |name|
      ensures name[i] != '.'
    {
      assert name[i] == ext[i - |stem| - 1];
    }
    var d := LastDot(name);
    if d != Some(|stem|) {
      assert false;
    }
    assert name[..|stem|] == stem && name[|stem| + 1..] == ext;
  }

  /** Converting twice changes nothing more than converting once. */
  lemma ExePathIdempotent(path: string)
    ensures ExePath(ExePath(path)) == ExePath(path)
  {
  }

  /** Whatever has a file name, once converted, may be marked executable. */
  lemma ExePathMayBeExecutable(path: string)
    requires FileName(path).Some?
    ensures AddMode(ExePath(path), true).Ok?
  {
  }

  /** A name without a dot has no extension. */
  lemma NoDotSplit(name: string)
    requires '.' !in name
    ensures SplitFileAtDot(name) == (name, None)
  {
  }

  /** A command naming a file without a dot gets `.exe` appended. */
  lemma {:induction false} CommandAppendsExe(dir: string, name: string)
    requires dir == [] || IsSep(dir[|dir| - 1])
    requires name != [] && '.' !in name
    requires forall i :: 0 <= i < |name| ==> !IsSep(name[i])
    ensures Command(dir + name) == dir + (name + "." + EXE)
  {
    var path := dir + name;
    DotlessName(dir, name);
    assert ExePath(path) == SetExtension(path, EXE);
    assert SetExtension(path, EXE) == dir + (name + "." + EXE) by {
      SetExtensionShape(path, EXE);
    }
  }

  /** A file name without a dot is its own stem and has no extension. */
  lemma {:induction false} DotlessName(dir: string, name: string)
    requires dir == [] || IsSep(dir[|dir| - 1])
    requires name != [] && '.' !in name
    requires forall i :: 0 <= i < |name| ==> !IsSep(name[i])
    ensures FileName(dir + name) == Some(name) && Parent(dir + name) == dir
    ensures SplitFileAtDot(name) == (name, None) && Extension(dir + name) == None
  {
    assert name[0] != '.';
    JoinedParts(dir, name);
    NoDotSplit(name);
  }

  /** A command naming a file with the `exe` extension is kept as it is. */
  lemma {:induction false} CommandKeepsExe(dir: string, stem: string)
    requires dir == [] || IsSep(dir[|dir| - 1])
    requires stem != [] && forall i :: 0 <= i < |stem| ==> !IsSep(stem[i])
    ensures Command(dir + stem + ".exe") == dir + stem + ".exe"
  {
    var name := stem + "." + EXE;
    forall i | 0 <= i < |name|
      ensures !IsSep(name[i])
    {
      if i < |stem| {
        assert name[i] == stem[i];
      }
    }
    NewNameSplits(stem, EXE);
    assert dir + stem + ".exe" == dir + name;
    JoinedParts(dir, name);
    assert Extension(dir + name) == Some(EXE);
  }

  /** Separators at the end of a path are skipped. */
  lemma {:induction false} TrimTailPadded(path: string, seps: string)
    requires forall i :: 0 <= i < |seps| ==> IsSep(seps[i])
    ensures TrimTail(path + seps) == TrimTail(path)
    decreases |seps|
  {
    if seps == [] {
      assert path + seps == path;
    } else {
      var s := path + seps;
      assert s[|s| - 1] == seps[|seps| - 1];
      assert s[..|s| - 1] == path + seps[..|seps| - 1];
      TrimTailPadded(path, seps[..|seps| - 1]);
    }
  }

  /** A `.` component at the end of a path is skipped. */
  lemma TrimTailCurDir(path: string, sep: char)
    requires IsSep(sep)
    ensures TrimTail(path + [sep, '.']) == TrimTail(path)
  {
    var s := path + [sep, '.'];
    assert EndsInCurDir(s);
    assert s[..|s| - 1] == path + [sep];
    TrimTailPadded(path, [sep]);
  }

  /** The contract of `TrimTail` determines its result: any prefix whose
      dropped tail is made of separators and `.` components, and that ends in
      neither, is the one `TrimTail` returns. */
  lemma {:induction false} TrimTailUnique(path: string, r: string)
    requires |r| <= |path| && r == path[..|r|]
    requires DroppedTail(path, |r|)
    requires r == [] || (!IsSep(r[|r| - 1]) && !EndsInCurDir(r))
    ensures r == TrimTail(path)
    decreases |path|
  {
    if |path| == |r| {
      assert path == r;
    } else {
      var shorter := path[..|path| - 1];
      assert r == shorter[..|r|];
      TrimTailUnique(shorter, r);
    }
  }

  /** A path that ends in a `..` component, whatever separators follow it,
      has no file name, so setting an extension leaves it alone. */
  lemma {:induction false} ParentDirHasNoName(dir: string, seps: string)
    requires dir == [] || IsSep(dir[|dir| - 1])
    requires forall i :: 0 <= i < |seps| ==> IsSep(seps[i])
    ensures FileName(dir + ".." + seps) == None
    ensures ExePath(dir + ".." + seps) == dir + ".." + seps
  {
    var p := dir + "..";
    TrimTailPadded(p, seps);
    assert p[|p| - 1] == '.' && p[|p| - 2] == '.';
    assert TrimTail(p) == p;
    NameStartJoined(dir, "..");
    assert p[|dir|..] == "..";
  }

  /** Neither the empty path nor a path made only of separators (a root) has
      a file name. */
  lemma {:induction false} RootHasNoName(seps: string)
    requires forall i :: 0 <= i < |seps| ==> IsSep(seps[i])
    ensures FileName(seps) == None
    ensures ExePath(seps) == seps
  {
    TrimTailPadded("", seps);
    assert "" + seps == seps;
  }

  /** Trailing separators do not hide the file name: a command ending in
      them is cut after the name before `.exe` is set, just as if they were
      not there; one already naming an `exe`, or naming no file, is kept
      whole, separators included. */
  lemma TrailingSeparatorsIgnored(path: string, seps: string)
    requires forall i :: 0 <= i < |seps| ==> IsSep(seps[i])
    ensures FileName(path + seps) == FileName(path)
    ensures Extension(path + seps) == Extension(path)
    ensures Command(path + seps) ==
      if FileName(path).Some? && Extension(path) != Some(EXE) then Command(path) else path + seps
  {
    TrimTailPadded(path, seps);
  }

  /** A trailing `.` component does not hide the file name either: `a/.`
      names the file `a`, and its command is `a.exe`. */
  lemma CurDirIgnored(path: string, sep: char)
    requires IsSep(sep)
    ensures FileName(path + [sep, '.']) == FileName(path)
    ensures Extension(path + [sep, '.']) == Extension(path)
    ensures Command(path + [sep, '.']) ==
      if FileName(path).Some? && Extension(path) != Some(EXE) then Command(path) else path + [sep, '.']
  {
    TrimTailCurDir(path, sep);
  }

  /** A command `name/.`, for a name without a dot, is the executable
      `name.exe`. */
  lemma {:induction false} CurDirCommand(dir: string, name: string)
    requires dir == [] || IsSep(dir[|dir| - 1])
    requires name != [] && '.' !in name
    requires forall i :: 0 <= i < |name| ==> !IsSep(name[i])
    ensures Command(dir + name + "/.") == dir + (name + "." + EXE)
  {
    var path := dir + name;
    DotlessName(dir, name);
    CommandAppendsExe(dir, name);
    CurDirIgnored(path, '/');
    assert path + ['/', '.'] == dir + name + "/.";
  }
}
