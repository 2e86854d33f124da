/** The `LayoutStrategy` base class (src/LayoutStrategy.ts): the markdown root
    directory, the root-relative link path of a page, and the listing of the
    `.mdx` files already under a directory.  `newLevel` and `getPathForPage`
    belong to a subclass that is not part of this model; the crawler receives
    them as functions. */
module Layout {
  import opened Common
  import opened Notion

  class LayoutStrategy {
    var rootDirectory: string

    constructor ()
      ensures rootDirectory == ""
    {
      rootDirectory := "";
    }

    method SetRootDirectoryForMarkdown(markdownOutputPath: string)
      modifies this
      ensures rootDirectory == markdownOutputPath
    {
      rootDirectory := markdownOutputPath;
    }
  }

  // ---------------------------------------------------------------------
  // Link paths

  /** `s.replaceAll("//", "/")`: scan left to right, replacing each
      non-overlapping occurrence. */
  function ReplaceDoubleSlashes(s: string): (r: string)
    ensures |r| <= |s|
    ensures s != [] ==> |r| > 0 && r[0] == s[0]
    decreases |s|
  {
    if |s| >= 2 && s[0] == '/' && s[1] == '/' then "/" + ReplaceDoubleSlashes(s[2..])
    else if s == [] then []
    else [s[0]] + ReplaceDoubleSlashes(s[1..])
  }

  /** The url a page is linked by; the base class reads nothing but the slug. */
  function GetLinkPathForPage(page: NotionPage): (r: string)
    ensures |r| > 0 && r[0] == '/'
    ensures '/' !in page.metadata.slug ==> r == "/" + page.metadata.slug
  {
    var joined := "/" + page.metadata.slug;
    SlugWithoutSeparatorUnchanged(page.metadata.slug);
    ReplaceDoubleSlashes(joined)
  }

  /** The link path is free of doubled separators, and a second replacement
      leaves it as it is, exactly when `"/" + slug` holds no `///`. */
  lemma LinkPathNormalisedIffNoTriple(page: NotionPage)
    ensures var path := GetLinkPathForPage(page);
      && (!HasDoubleSlash(path) <==> !HasTripleSlash("/" + page.metadata.slug))
      && (ReplaceDoubleSlashes(path) == path <==> !HasTripleSlash("/" + page.metadata.slug))
  {
    var path := GetLinkPathForPage(page);
    DoubledSeparatorSurvivesIffTriple("/" + page.metadata.slug);
    if HasDoubleSlash(path) {
      ReplaceShortens(path);
    } else {
      ReplaceWithoutDoubleSlash(path);
    }
  }

  /** Every `//` the replacement meets costs one character. */
  lemma {:induction false} ReplaceShortens(s: string)
    requires HasDoubleSlash(s)
    ensures |ReplaceDoubleSlashes(s)| < |s|
    decreases |s|
  {
    if !(|s| >= 2 && s[0] == '/' && s[1] == '/') {
      var i :| 0 <= i < |s| - 1 && s[i] == '/' && s[i + 1] == '/';
      assert s[1..][i - 1] == '/' && s[1..][i] == '/';
      ReplaceShortens(s[1..]);
    }
  }

  lemma SlugWithoutSeparatorUnchanged(slug: string)
    ensures '/' !in slug ==> ReplaceDoubleSlashes("/" + slug) == "/" + slug
  {
    if '/' !in slug {
      var joined := "/" + slug;
      assert !HasDoubleSlash(joined) by {
        forall i | 0 <= i < |joined| - 1 ensures !(joined[i] == '/' && joined[i + 1] == '/') {
          assert joined[i + 1] == slug[i];
        }
      }
      ReplaceWithoutDoubleSlash(joined);
    }
  }

  predicate HasDoubleSlash(s: string) {
    exists i :: 0 <= i < |s| - 1 && s[i] == '/' && s[i + 1] == '/'
  }

  predicate HasTripleSlash(s: string) {
    exists i :: 0 <= i < |s| - 2 && s[i] == '/' && s[i + 1] == '/' && s[i + 2] == '/'
  }

  /** A string without `//` is left as it is. */
  lemma {:induction false} ReplaceWithoutDoubleSlash(s: string)
    requires !HasDoubleSlash(s)
    ensures ReplaceDoubleSlashes(s) == s
    decreases |s|
  {
    if s != [] {
      assert !HasDoubleSlash(s[1..]) by {
        forall i | 0 <= i < |s[1..]| - 1 ensures !(s[1..][i] == '/' && s[1..][i + 1] == '/') {
          assert s[1..][i] == s[i + 1] && s[1..][i + 1] == s[i + 2];
        }
      }
      ReplaceWithoutDoubleSlash(s[1..]);
    }
  }

  /** The replacement leaves a doubled separator exactly when the input holds
      three separators in a row: `replaceAll` is not a collapse of runs. */
  lemma {:induction false} DoubledSeparatorSurvivesIffTriple(s: string)
    ensures HasDoubleSlash(ReplaceDoubleSlashes(s)) <==> HasTripleSlash(s)
    decreases |s|
  {
    if HasTripleSlash(s) {
      TripleLeavesDouble(s);
    } else {
      NoTripleLeavesNoDouble(s);
    }
  }

  lemma {:induction false} TripleLeavesDouble(s: string)
    requires HasTripleSlash(s)
    ensures HasDoubleSlash(ReplaceDoubleSlashes(s))
    decreases |s|
  {
    var k :| 0 <= k < |s| - 2 && s[k] == '/' && s[k + 1] == '/' && s[k + 2] == '/';
    var r := ReplaceDoubleSlashes(s);
    if s[0] == '/' && s[1] == '/' {
      var t := s[2..];
      assert r == "/" + ReplaceDoubleSlashes(t);
      if k <= 1 {
        assert t[0] == '/';
        assert r[0] == '/' && r[1] == '/';
      } else {
        assert t[k - 2] == '/' && t[k - 1] == '/' && t[k] == '/';
        TripleLeavesDouble(t);
        var rt := ReplaceDoubleSlashes(t);
        var i :| 0 <= i < |rt| - 1 && rt[i] == '/' && rt[i + 1] == '/';
        assert r[i + 1] == '/' && r[i + 2] == '/';
      }
    } else {
      var t := s[1..];
      assert r == [s[0]] + ReplaceDoubleSlashes(t);
      assert k >= 1;
      assert t[k - 1] == '/' && t[k] == '/' && t[k + 1] == '/';
      TripleLeavesDouble(t);
      var rt := ReplaceDoubleSlashes(t);
      var i :| 0 <= i < |rt| - 1 && rt[i] == '/' && rt[i + 1] == '/';
      assert r[i + 1] == '/' && r[i + 2] == '/';
    }
  }

  lemma {:induction false} NoTripleLeavesNoDouble(s: string)
    requires !HasTripleSlash(s)
    ensures !HasDoubleSlash(ReplaceDoubleSlashes(s))
    decreases |s|
  {
    if s == [] {
      return;
    }
    var t := if |s| >= 2 && s[0] == '/' && s[1] == '/' then s[2..] else s[1..];
    var d := |s| - |t|;
    assert !HasTripleSlash(t) by {
      forall k | 0 <= k < |t| - 2 ensures !(t[k] == '/' && t[k + 1] == '/' && t[k + 2] == '/') {
        assert t[k] == s[k + d] && t[k + 1] == s[k + d + 1] && t[k + 2] == s[k + d + 2];
      }
    }
    NoTripleLeavesNoDouble(t);
    var head := if |s| >= 2 && s[0] == '/' && s[1] == '/' then '/' else s[0];
    assert ReplaceDoubleSlashes(s) == [head] + ReplaceDoubleSlashes(t);
    assert head == '/' && t != [] ==> t[0] == s[d] != '/';
    ConsNoDouble(head, ReplaceDoubleSlashes(t));
  }

  lemma ConsNoDouble(head: char, r: string)
    requires !HasDoubleSlash(r)
    requires head == '/' && r != [] ==> r[0] != '/'
    ensures !HasDoubleSlash([head] + r)
  {
    var hr := [head] + r;
    forall i | 0 <= i < |hr| - 1 ensures !(hr[i] == '/' && hr[i + 1] == '/') {
      if i > 0 {
        assert hr[i] == r[i - 1] && hr[i + 1] == r[i];
      }
    }
  }

  /** A slug holding `///` is linked with a doubled separator left in place. */
  lemma TripleSlashSlugKeepsDoubledSeparator(page: NotionPage)
    requires page.metadata.slug == "a///b"
    ensures GetLinkPathForPage(page) == "/a//b"
  {
    assert ReplaceDoubleSlashes("") == "";
    assert ReplaceDoubleSlashes("b") == "b" by { assert "b"[1..] == ""; }
    assert ReplaceDoubleSlashes("/b") == "/b" by { assert "/b"[1..] == "b"; }
    assert ReplaceDoubleSlashes("///b") == "//b" by { assert "///b"[2..] == "/b"; }
    assert ReplaceDoubleSlashes("a///b") == "a//b" by { assert "a///b"[1..] == "///b"; }
    assert ReplaceDoubleSlashes("/a///b") == "/a//b" by { assert "/a///b"[1..] == "a///b"; }
    assert "/" + page.metadata.slug == "/a///b";
  }

  // ---------------------------------------------------------------------
  // Files already under the markdown root

  /** A directory listing as `readdirSync`/`statSync` see it, in listing order. */
  datatype DirEntry = File(name: string) | Directory(name: string, entries: seq<DirEntry>)

  /** `getListOfExistingFiles(dir)` over the tree `entries` found under `dir`. */
  function GetListOfExistingFiles(dir: string, entries: seq<DirEntry>): (r: seq<string>)
    ensures forall p :: p in r ==> EndsWith(p, ".mdx") && StartsWith(p, dir + "/")
    decreases entries
  {
    if entries == [] then []
    else
      var item := entries[0];
      var path := dir + "/" + item.name;
      var here :=
        match item
        case Directory(_, children) =>
          GetListOfExistingFiles(path, children)
        case File(_) => if EndsWith(path, ".mdx") then [path] else [];
      InDirectory(dir, item.name, here);
      here + GetListOfExistingFiles(dir, entries[1..])
  }

  /** A path under `dir/name`, or that path itself, lies under `dir`. */
  lemma InDirectory(dir: string, name: string, paths: seq<string>)
    requires forall p :: p in paths ==> p == dir + "/" + name || StartsWith(p, dir + "/" + name + "/")
    ensures forall p :: p in paths ==> StartsWith(p, dir + "/")
  {
    var d := dir + "/";
    forall p | p in paths ensures StartsWith(p, d) {
      assert (d + name)[..|d|] == d;
      assert (d + name + "/")[..|d|] == d;
    }
  }

  /** Every non-directory path under `dir`, depth first in listing order. */
  function FilePaths(dir: string, entries: seq<DirEntry>): seq<string>
    decreases entries
  {
    if entries == [] then []
    else
      var path := dir + "/" + entries[0].name;
      var here :=
        match entries[0]
        case Directory(_, children) => FilePaths(path, children)
        case File(_) => [path];
      here + FilePaths(dir, entries[1..])
  }

  /** The paths in `paths` that end in `.mdx`, in order. */
  function MdxOnly(paths: seq<string>): (r: seq<string>)
    ensures forall p :: p in r <==> p in paths && EndsWith(p, ".mdx")
  {
    if paths == [] then []
    else (if EndsWith(paths[0], ".mdx") then [paths[0]] else []) + MdxOnly(paths[1..])
  }

  lemma {:induction false} MdxOnlyAppend(a: seq<string>, b: seq<string>)
    ensures MdxOnly(a + b) == MdxOnly(a) + MdxOnly(b)
    decreases |a|
  {
    if a != [] {
      assert (a + b)[1..] == a[1..] + b;
      MdxOnlyAppend(a[1..], b);
    } else {
      assert a + b == b;
    }
  }

  /** The listing is exactly the `.mdx` files of the tree, in depth-first
      listing order: no directory and no other file appears in it. */
  lemma {:induction false} ExistingFilesAreTheMdxFiles(dir: string, entries: seq<DirEntry>)
    ensures GetListOfExistingFiles(dir, entries) == MdxOnly(FilePaths(dir, entries))
    decreases entries
  {
    if entries != [] {
      var path := dir + "/" + entries[0].name;
      match entries[0]
      case Directory(_, children) =>
        ExistingFilesAreTheMdxFiles(path, children);
        ExistingFilesAreTheMdxFiles(dir, entries[1..]);
        MdxOnlyAppend(FilePaths(path, children), FilePaths(dir, entries[1..]));
      case File(_) =>
        ExistingFilesAreTheMdxFiles(dir, entries[1..]);
        MdxOnlyAppend([path], FilePaths(dir, entries[1..]));
        assert MdxOnly([path]) == if EndsWith(path, ".mdx") then [path] else [];
    }
  }

  /** Membership form: a path is listed iff it is a file path of the tree that
      ends in `.mdx`. */
  lemma ExistingFilesMembership(dir: string, entries: seq<DirEntry>, p: string)
    ensures p in GetListOfExistingFiles(dir, entries) <==> p in FilePaths(dir, entries) && EndsWith(p, ".mdx")
  {
    ExistingFilesAreTheMdxFiles(dir, entries);
  }
}
