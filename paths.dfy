/**
 * `convert_windows_path_to_wsl`, copied into parse_charities.py,
 * analyze_xml_content.py, diagnose_xml_tags.py and debug_parser.py: a line of
 * a file list, stripped, with a `C:` drive rewritten to `/mnt/c` and
 * backslashes turned into slashes.
 */
module Paths {
  import opened Text

  /** `s.replace('\\', '/')` */
  function Slashes(s: string): (r: string)
    ensures |r| == |s|
    ensures forall i :: 0 <= i < |s| ==> r[i] == (if s[i] == '\\' then '/' else s[i])
  {
    if s == [] then [] else [if s[0] == '\\' then '/' else s[0]] + Slashes(s[1..])
  }

  /** `path.startswith('C:')`, upper-case drive letter only. */
  predicate OnDriveC(p: string)
  {
    |p| >= 2 && p[..2] == "C:"
  }

  /** What `convert_windows_path_to_wsl` makes of the stripped path. */
  function MountDriveC(p: string): string
  {
    if OnDriveC(p) then "/mnt/c" + Slashes(p[2..]) else p
  }

  /**
   * `convert_windows_path_to_wsl(path)`: only a stripped path on drive `C:`
   * changes, its `C:` giving way to `/mnt/c`.
   */
  function ConvertWindowsPathToWsl(path: string): (r: string)
    ensures |r| == |Strip(path)| + (if OnDriveC(Strip(path)) then 4 else 0)
    ensures OnDriveC(Strip(path)) ==> r[..6] == "/mnt/c"
    ensures !OnDriveC(Strip(path)) ==> r == Strip(path)
  {
    MountDriveC(Strip(path))
  }

  /**
   * A `C:` path becomes `/mnt/c` followed by the rest of the path with every
   * backslash turned into a slash: four characters longer, and without a
   * backslash.
   */
  lemma MountedPath(p: string)
    requires OnDriveC(p)
    ensures var r := MountDriveC(p);
            && |r| == |p| + 4
            && r[..6] == "/mnt/c"
            && (forall i :: 0 <= i < |r| ==> r[i] != '\\')
            && (forall i :: 2 <= i < |p| && p[i] != '\\' ==> r[i + 4] == p[i])
  {
    var r := MountDriveC(p);
    var q := p[2..];
    assert r == "/mnt/c" + Slashes(q);
    assert forall i :: 0 <= i < 6 ==> "/mnt/c"[i] != '\\';
    PrefixedSlashes("/mnt/c", q);
    forall i | 2 <= i < |p| && p[i] != '\\'
      ensures r[i + 4] == p[i]
    {
      assert q[i - 2] == p[i];
    }
  }

  /** `convert_windows_path_to_wsl` on a path whose stripped form starts with `C:`. */
  lemma ConvertDriveC(path: string)
    requires OnDriveC(Strip(path))
    ensures var p := Strip(path); var r := ConvertWindowsPathToWsl(path);
            && |r| == |p| + 4
            && r[..6] == "/mnt/c"
            && (forall i :: 0 <= i < |r| ==> r[i] != '\\')
            && (forall i :: 2 <= i < |p| && p[i] != '\\' ==> r[i + 4] == p[i])
  {
    MountedPath(Strip(path));
  }

  /** A prefix without backslashes followed by `Slashes(q)` holds no backslash and keeps `q`'s other characters. */
  lemma PrefixedSlashes(pre: string, q: string)
    requires forall i :: 0 <= i < |pre| ==> pre[i] != '\\'
    ensures var r := pre + Slashes(q);
            && |r| == |pre| + |q|
            && r[..|pre|] == pre
            && (forall i :: 0 <= i < |r| ==> r[i] != '\\')
            && (forall j :: 0 <= j < |q| && q[j] != '\\' ==> r[|pre| + j] == q[j])
  {
    var t := Slashes(q);
    var r := pre + t;
    forall i | 0 <= i < |r|
      ensures r[i] != '\\'
    {
      if i >= |pre| {
        assert r[i] == t[i - |pre|];
      }
    }
  }

  /**
   * Any other path, a lower-case `c:` drive included, comes back stripped and
   * otherwise unchanged.
   */
  lemma ConvertOtherPath(path: string)
    requires !OnDriveC(Strip(path))
    ensures ConvertWindowsPathToWsl(path) == Strip(path)
    ensures ConvertWindowsPathToWsl(path) == [] || (!IsSpace(ConvertWindowsPathToWsl(path)[0])
            && !IsSpace(ConvertWindowsPathToWsl(path)[|ConvertWindowsPathToWsl(path)| - 1]))
  {
  }

  /** Lower-case drive letters are not converted. */
  lemma LowerCaseDriveKept()
    ensures ConvertWindowsPathToWsl("c:\\data") == "c:\\data"
  {
    var s := "c:\\data";
    assert s[0] == 'c' && s[|s| - 1] == 'a';
    StripOfStripped(s);
    assert !OnDriveC(s) by {
      assert s[..2][0] == 'c';
    }
  }

  /** Mounting keeps a path free of surrounding whitespace. */
  lemma MountKeepsTrimmed(p: string)
    requires p == [] || (!IsSpace(p[0]) && !IsSpace(p[|p| - 1]))
    ensures var r := MountDriveC(p); r == [] || (!IsSpace(r[0]) && !IsSpace(r[|r| - 1]))
  {
    if OnDriveC(p) {
      var t := Slashes(p[2..]);
      var r := "/mnt/c" + t;
      assert r[0] == '/';
      if t != [] {
        assert r[|r| - 1] == t[|t| - 1];
        assert p[2..][|t| - 1] == p[|p| - 1];
      }
    }
  }

  /** The result never carries surrounding whitespace. */
  lemma ConvertIsStripped(path: string)
    ensures var r := ConvertWindowsPathToWsl(path); r == [] || (!IsSpace(r[0]) && !IsSpace(r[|r| - 1]))
  {
    MountKeepsTrimmed(Strip(path));
  }

  /** Converting a converted path changes nothing. */
  lemma ConvertIdempotent(path: string)
    ensures ConvertWindowsPathToWsl(ConvertWindowsPathToWsl(path)) == ConvertWindowsPathToWsl(path)
  {
    var r := ConvertWindowsPathToWsl(path);
    ConvertIsStripped(path);
    StripOfStripped(r);
    if OnDriveC(Strip(path)) {
      assert r[0] == '/';
      assert !OnDriveC(r) by {
        assert |r| >= 2 ==> r[..2][0] == '/';
      }
    } else {
      assert r == Strip(path);
    }
  }

  /**
   * `[convert_windows_path_to_wsl(line) for line in f][:size]`: the first
   * `size` lines of a file list, converted.
   */
  function Sample(lines: seq<string>, size: nat): (r: seq<string>)
    ensures |r| == if |lines| < size then |lines| else size
    ensures forall i :: 0 <= i < |r| ==> r[i] == ConvertWindowsPathToWsl(lines[i])
  {
    var n := if |lines| < size then |lines| else size;
    seq(n, i requires 0 <= i < n => ConvertWindowsPathToWsl(lines[i]))
  }
}
