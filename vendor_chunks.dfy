/**
 * Two pieces of the client build configuration: the name of the vendor
 * chunk a `node_modules` module is split into, and the `generate` function
 * that folds the emitted files into the asset manifest.
 */
module VendorChunks {
  import opened Wrappers
  import opened Text

  /** `[\\/]`: either path separator. */
  predicate IsSeparator(c: char) {
    c == '/' || c == '\\'
  }

  /** The characters `.` does not match. */
  predicate IsLineTerminator(c: char) {
    c == '\n' || c == '\r' || c == '\U{2028}' || c == '\U{2029}'
  }

  /**
   * Where the lazy capture `(.*?)` followed by `([\\/]|$)` ends when it
   * starts at `j`: the first separator or the end of input, unless a line
   * terminator comes first, and then there is no match from this start.
   */
  function CaptureEnd(s: string, j: nat): (r: Option<nat>)
    requires j <= |s|
    ensures r.Some? ==> j <= r.value <= |s| && (r.value == |s| || IsSeparator(s[r.value]))
    ensures r.Some? ==> forall k :: j <= k < r.value ==> !IsSeparator(s[k]) && !IsLineTerminator(s[k])
    decreases |s| - j
  {
    if j == |s| || IsSeparator(s[j]) then Some(j)
    else if IsLineTerminator(s[j]) then None
    else CaptureEnd(s, j + 1)
  }

  /**
   * `[\\/]node_modules[\\/](.*?)([\\/]|$)` tried at position `i`: it matches
   * exactly when a separator, `node_modules` and a separator start there and
   * the capture can end, and it captures one path segment, up to the next
   * separator or the end.
   */
  function MatchAt(s: string, i: nat): (r: Option<string>)
    ensures r.Some? <==> i + 14 <= |s| && IsSeparator(s[i]) && s[i + 1..i + 13] == "node_modules"
                         && IsSeparator(s[i + 13]) && CaptureEnd(s, i + 14).Some?
    ensures r.Some? ==> r.value == s[i + 14..CaptureEnd(s, i + 14).value]
    ensures r.Some? ==> forall k :: 0 <= k < |r.value| ==> !IsSeparator(r.value[k]) && !IsLineTerminator(r.value[k])
  {
    if i + 14 <= |s| && IsSeparator(s[i]) && s[i + 1..i + 13] == "node_modules" && IsSeparator(s[i + 13]) then
      match CaptureEnd(s, i + 14)
      case Some(k) => Some(s[i + 14..k])
      case None => None
    else None
  }

  /** `s.match(...)?.[1]`: the capture of the leftmost match at or after `i`. */
  function Search(s: string, i: nat): Option<string>
    decreases |s| - i
  {
    if i >= |s| then None
    else if MatchAt(s, i).Some? then MatchAt(s, i)
    else Search(s, i + 1)
  }

  /** The position of the first `c` in `s`. */
  function FirstIndex(s: string, c: char): (k: nat)
    requires c in s
    ensures k < |s| && s[k] == c && c !in s[..k]
  {
    if s[0] == c then 0
    else
      var k := FirstIndex(s[1..], c);
      assert s[..k + 1] == [s[0]] + s[1..][..k];
      k + 1
  }

  /** `s.replace('@', '')`: only the first '@' is removed; a string without one is returned as it is. */
  function RemoveFirst(s: string, c: char): (r: string)
    ensures c !in s ==> r == s
    ensures c in s ==> |r| == |s| - 1
    ensures c in s ==> r == s[..FirstIndex(s, c)] + s[FirstIndex(s, c) + 1..]
  {
    if s == [] then []
    else if s[0] == c then s[1..]
    else
      var rest := RemoveFirst(s[1..], c);
      if c in s[1..] then
        DropAfterHead(s, c, rest);
        [s[0]] + rest
      else
        [s[0]] + rest
  }

  /** Removing the first `c` after a head that is not `c` keeps the head. */
  lemma DropAfterHead(s: string, c: char, rest: string)
    requires s != [] && s[0] != c && c in s[1..]
    requires rest == s[1..][..FirstIndex(s[1..], c)] + s[1..][FirstIndex(s[1..], c) + 1..]
    ensures c in s && [s[0]] + rest == s[..FirstIndex(s, c)] + s[FirstIndex(s, c) + 1..]
  {
    var k := FirstIndex(s[1..], c);
    assert FirstIndex(s, c) == k + 1;
    assert s[..k + 1] == [s[0]] + s[1..][..k];
    assert s[k + 2..] == s[1..][k + 1..];
  }

  /** `defaultVendors.name(module)`, for `module.context` (absent as `None`). */
  function ChunkName(context: Option<string>): string {
    if context.None? || context.value == "" then "vendor"
    else
      var capture := Search(context.value, 0);
      var packageName := if capture.Some? then RemoveFirst(capture.value, '@') else "vendor";
      "vendor." + TakeUntil(packageName, '/')
  }

  /** Every chunk name starts with "vendor", and a module without context gets exactly that. */
  lemma ChunkNameIsVendor(context: Option<string>)
    ensures StartsWith(ChunkName(context), "vendor")
    ensures context.None? || context == Some("") ==> ChunkName(context) == "vendor"
  {
    if context.Some? && context.value != "" {
      var capture := Search(context.value, 0);
      var packageName := if capture.Some? then RemoveFirst(capture.value, '@') else "vendor";
      var suffix := "." + TakeUntil(packageName, '/');
      assert ChunkName(context) == "vendor" + suffix;
      assert ("vendor" + suffix)[..6] == "vendor";
    } else {
      assert "vendor"[..6] == "vendor";
    }
  }

  /** A match needs a "node_modules" segment. */
  lemma {:induction false} SearchNeedsNodeModules(s: string, i: nat)
    requires Search(s, i).Some?
    ensures Contains(s, "node_modules")
    decreases |s| - i
  {
    if MatchAt(s, i).Some? {
      ContainsAt(s, "node_modules", i + 1);
    } else {
      SearchNeedsNodeModules(s, i + 1);
    }
  }

  lemma {:induction false} ContainsAt(s: string, sub: string, k: nat)
    requires k + |sub| <= |s| && s[k..k + |sub|] == sub
    ensures Contains(s, sub)
  {
    if k > 0 {
      assert s[1..][k - 1..k - 1 + |sub|] == sub;
      ContainsAt(s[1..], sub, k - 1);
    }
  }

  /** A context without a node_modules segment is named "vendor.vendor". */
  lemma NoNodeModulesIsVendorVendor(context: string)
    requires context != "" && !Contains(context, "node_modules")
    ensures ChunkName(Some(context)) == "vendor.vendor"
  {
    if Search(context, 0).Some? {
      SearchNeedsNodeModules(context, 0);
    }
    TakeUntilAbsent("vendor", '/');
  }

  /**
   * The name comes from the segment right after the first node_modules
   * directory: with no "node_modules" before it, a context
   * `pre/node_modules/<segment>` followed by the end or a separator is named
   * "vendor." plus the segment without its first '@'.
   */
  lemma FirstSegmentNamesChunk(pre: string, segment: string, tail: string)
    requires !Contains(pre, "node_modules")
    requires forall k :: 0 <= k < |segment| ==> !IsSeparator(segment[k]) && !IsLineTerminator(segment[k])
    requires tail == "" || IsSeparator(tail[0])
    ensures ChunkName(Some(pre + "/node_modules/" + segment + tail)) == "vendor." + RemoveFirst(segment, '@')
  {
    var s := pre + "/node_modules/" + segment + tail;
    assert s == pre + "/node_modules/" + (segment + tail);
    NoMatchBefore(pre, segment + tail, 0);
    MatchAfterPrefix(pre, segment, tail);
    RemoveFirstKeepsSeparators(segment, '@');
    TakeUntilAbsent(RemoveFirst(segment, '@'), '/');
  }

  /** At the "/node_modules/" after `pre`, the pattern captures the segment up to the next separator. */
  lemma MatchAfterPrefix(pre: string, segment: string, tail: string)
    requires forall k :: 0 <= k < |segment| ==> !IsSeparator(segment[k]) && !IsLineTerminator(segment[k])
    requires tail == "" || IsSeparator(tail[0])
    ensures MatchAt(pre + "/node_modules/" + segment + tail, |pre|) == Some(segment)
  {
    var s := pre + "/node_modules/" + segment + tail;
    assert s[|pre|] == '/' && s[|pre| + 1..|pre| + 13] == "node_modules" && s[|pre| + 13] == '/';
    CaptureRunsToEnd(s, |pre| + 14, |segment|);
    assert s[|pre| + 14..|pre| + 14 + |segment|] == segment;
  }

  /** From `i` up to the "/node_modules/" that ends `pre`, no position matches. */
  lemma {:induction false} NoMatchBefore(pre: string, rest: string, i: nat)
    requires !Contains(pre, "node_modules")
    requires i <= |pre|
    ensures Search(pre + "/node_modules/" + rest, i) == Search(pre + "/node_modules/" + rest, |pre|)
    decreases |pre| - i
  {
    var s := pre + "/node_modules/" + rest;
    if i < |pre| {
      if i + 13 <= |pre| {
        assert s[i + 1..i + 13] == pre[i + 1..i + 13];
        NotContainsAt(pre, "node_modules", i + 1);
      } else {
        assert s[|pre|] == '/';
        assert s[i + 1..i + 13][|pre| - i - 1] == '/';
        assert "node_modules"[|pre| - i - 1] != '/';
      }
      assert s[i + 1..i + 13] != "node_modules";
      assert MatchAt(s, i).None?;
      NoMatchBefore(pre, rest, i + 1);
    }
  }

  /** Where `sub` does not occur, no slice of that length equals it. */
  lemma {:induction false} NotContainsAt(s: string, sub: string, k: nat)
    requires !Contains(s, sub)
    requires k + |sub| <= |s|
    ensures s[k..k + |sub|] != sub
  {
    if k > 0 {
      assert s[1..][k - 1..k - 1 + |sub|] == s[k..k + |sub|];
      NotContainsAt(s[1..], sub, k - 1);
    }
  }

  lemma {:induction false} CaptureRunsToEnd(s: string, j: nat, n: nat)
    requires j + n <= |s|
    requires forall k :: j <= k < j + n ==> !IsSeparator(s[k]) && !IsLineTerminator(s[k])
    requires j + n == |s| || IsSeparator(s[j + n])
    ensures CaptureEnd(s, j) == Some(j + n)
    decreases n
  {
    if n > 0 {
      CaptureRunsToEnd(s, j + 1, n - 1);
    }
  }

  lemma {:induction false} RemoveFirstKeepsSeparators(s: string, c: char)
    requires '/' !in s
    ensures '/' !in RemoveFirst(s, c)
  {
    if s != [] && s[0] != c {
      RemoveFirstKeepsSeparators(s[1..], c);
    }
  }

  /** A context ending in "node_modules/" captures the empty string, which `??` does not replace. */
  lemma EmptySegmentIsVendorDot(pre: string)
    requires !Contains(pre, "node_modules")
    ensures ChunkName(Some(pre + "/node_modules/")) == "vendor."
  {
    FirstSegmentNamesChunk(pre, "", "");
    assert pre + "/node_modules/" + "" + "" == pre + "/node_modules/";
  }

  /** A scoped package is named after its scope: the capture stops at the '/' after it. */
  lemma ScopedPackageUsesScope(pre: string, scope: string, rest: string)
    requires !Contains(pre, "node_modules")
    requires forall k :: 0 <= k < |scope| ==> !IsSeparator(scope[k]) && !IsLineTerminator(scope[k])
    ensures ChunkName(Some(pre + "/node_modules/@" + scope + "/" + rest)) == "vendor." + scope
  {
    ScopeSegment(scope);
    ScopedContext(pre, scope, rest);
    FirstSegmentNamesChunk(pre, "@" + scope, "/" + rest);
  }

  lemma ScopeSegment(scope: string)
    requires forall k :: 0 <= k < |scope| ==> !IsSeparator(scope[k]) && !IsLineTerminator(scope[k])
    ensures forall k :: 0 <= k < |"@" + scope| ==> !IsSeparator(("@" + scope)[k]) && !IsLineTerminator(("@" + scope)[k])
    ensures RemoveFirst("@" + scope, '@') == scope
  {
    assert ("@" + scope)[1..] == scope;
  }

  lemma ScopedContext(pre: string, scope: string, rest: string)
    ensures pre + "/node_modules/@" + scope + "/" + rest == pre + "/node_modules/" + ("@" + scope) + ("/" + rest)
  {
    assert "/node_modules/@" == "/node_modules/" + "@";
  }

  /** One element of the `files` array `generate` receives. */
  datatype FileEntry = NotAnObject | FileObject(name: Option<string>, path: Option<string>)

  /** `file && typeof file === 'object' && 'name' in file && 'path' in file` */
  predicate Complete(f: FileEntry) {
    f.FileObject? && f.name.Some? && f.path.Some?
  }

  /** One step of the reduce: a complete file sets its name's entry. */
  function AddFile(manifest: map<string, string>, f: FileEntry): map<string, string> {
    if Complete(f) then manifest[f.name.value := f.path.value] else manifest
  }

  /** `files.reduce(step, initial)`, described by its last step. */
  function Fold(initial: map<string, string>, files: seq<FileEntry>): map<string, string> {
    if files == [] then initial
    else AddFile(Fold(initial, files[..|files| - 1]), files[|files| - 1])
  }

  /** The path the last complete file named `name` carries, if any. */
  function LastPathFor(files: seq<FileEntry>, name: string): (r: Option<string>)
    ensures r.Some? ==> exists i :: 0 <= i < |files| && Complete(files[i]) && files[i].name.value == name
                                    && files[i].path.value == r.value
    ensures r.None? ==> forall i :: 0 <= i < |files| && Complete(files[i]) ==> files[i].name.value != name
  {
    if files == [] then None
    else
      var last := files[|files| - 1];
      if Complete(last) && last.name.value == name then Some(last.path.value)
      else
        var r := LastPathFor(files[..|files| - 1], name);
        assert forall i :: 0 <= i < |files| - 1 ==> files[..|files| - 1][i] == files[i];
        r
  }

  /**
   * The manifest maps each name to the path of the last complete file with
   * that name; names no complete file carries keep their initial entry.
   */
  lemma {:induction false} FoldLookup(initial: map<string, string>, files: seq<FileEntry>, name: string)
    ensures name in Fold(initial, files) <==> name in initial || LastPathFor(files, name).Some?
    ensures LastPathFor(files, name).Some? ==> Fold(initial, files)[name] == LastPathFor(files, name).value
    ensures LastPathFor(files, name).None? && name in initial ==> Fold(initial, files)[name] == initial[name]
  {
    if files != [] {
      FoldLookup(initial, files[..|files| - 1], name);
    }
  }

  /** Later files override earlier ones with the same name. */
  lemma LaterFileWins(initial: map<string, string>, files: seq<FileEntry>, name: string, path: string)
    ensures var g := FileObject(Some(name), Some(path));
      Fold(initial, files + [g]) == Fold(initial, files)[name := path]
  {
    var g := FileObject(Some(name), Some(path));
    assert (files + [g])[..|files|] == files;
  }

  /** Incomplete entries are skipped. */
  lemma IncompleteFileSkipped(initial: map<string, string>, files: seq<FileEntry>, f: FileEntry)
    requires !Complete(f)
    ensures Fold(initial, files + [f]) == Fold(initial, files)
  {
    assert (files + [f])[..|files|] == files;
  }

  /** The manifest object `generate` builds on. */
  class Manifest {
    var entries: map<string, string>

    constructor(entries: map<string, string>)
      ensures this.entries == entries
    {
      this.entries := entries;
    }

    /** `manifest[name] = path` */
    method Set(name: string, path: string)
      modifies this
      ensures entries == old(entries)[name := path]
    {
      entries := entries[name := path];
    }
  }

  /**
   * `generate(seed, files)`: reduces into the seed object itself, or into a
   * fresh empty one when there is no seed, and returns that object.
   */
  method Generate(seed: Manifest?, files: seq<FileEntry>) returns (manifest: Manifest)
    modifies seed
    ensures seed != null ==> manifest == seed
    ensures seed == null ==> fresh(manifest)
    ensures manifest.entries == Fold(if seed != null then old(seed.entries) else map[], files)
  {
    if seed != null {
      manifest := seed;
    } else {
      manifest := new Manifest(map[]);
    }
    ghost var initial := manifest.entries;
    var i := 0;
    while i < |files|
      invariant 0 <= i <= |files|
      invariant manifest.entries == Fold(initial, files[..i])
      invariant seed != null ==> manifest == seed
      invariant seed == null ==> fresh(manifest)
    {
      var file := files[i];
      if file.FileObject? && file.name.Some? && file.path.Some? {
        manifest.Set(file.name.value, file.path.value);
      }
      assert files[..i + 1][..i] == files[..i];
      i := i + 1;
    }
    assert files[..i] == files;
  }
}
