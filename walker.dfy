/**
 * `processDirectory`, shared word for word by the docs and the about
 * migrations (`scripts/migrate-docs.ts`, `scripts/migrate-about.ts`): a
 * recursive walk over a source tree that mirrors every directory into the
 * destination and writes every `.md` file, rewritten, to the same relative
 * place. The two scripts differ only in the rewrite, which is a parameter
 * here.
 */
module Walker {
  import opened Strings
  import opened FileTree
  import MigrateDocs
  import MigrateAbout

  /** The rewrite a script applies to a file's content, given the file's
      path relative to the source root. */
  type Rewrite = (string, string) -> string

  /** The docs script's rewrite. */
  function DocsRewrite(): Rewrite {
    (content, relativePath) => MigrateDocs.TransformFrontmatter(content, relativePath)
  }

  /** The about script's rewrite. */
  function AboutRewrite(): Rewrite {
    (content, relativePath) => MigrateAbout.TransformAboutFrontmatter(content, relativePath)
  }

  /* ---------------------------------------------------------------------- */
  /* What the walk does, as functions of the source tree                     */
  /* ---------------------------------------------------------------------- */

  /** The files written for `entries`, a later write of a path replacing an earlier one. */
  function TreeWrites(transform: Rewrite, entries: seq<Node>, destDir: Path, basePath: string): map<Path, string>
    decreases entries
  {
    if entries == [] then map[]
    else TreeWrites(transform, entries[..|entries| - 1], destDir, basePath) + EntryWrites(transform, entries[|entries| - 1], destDir, basePath)
  }

  function EntryWrites(transform: Rewrite, e: Node, destDir: Path, basePath: string): map<Path, string>
    decreases e
  {
    match e
    case File(name, content) =>
      if IsMarkdown(name) then map[destDir + [name] := transform(content, Join(basePath, name))] else map[]
    case Dir(name, children) => TreeWrites(transform, children, destDir + [name], Join(basePath, name))
  }

  /** The directories made for `entries`: each subdirectory, and the
      directory of each file written (`mkdirSync(dirname(destPath))`). */
  function TreeDirs(entries: seq<Node>, destDir: Path): set<Path>
    decreases entries
  {
    if entries == [] then {}
    else TreeDirs(entries[..|entries| - 1], destDir) + EntryDirs(entries[|entries| - 1], destDir)
  }

  function EntryDirs(e: Node, destDir: Path): set<Path>
    decreases e
  {
    match e
    case File(name, _) => if IsMarkdown(name) then Prefixes(destDir) else {}
    case Dir(name, children) => Prefixes(destDir + [name]) + TreeDirs(children, destDir + [name])
  }

  /* ---------------------------------------------------------------------- */
  /* The walk                                                                */
  /* ---------------------------------------------------------------------- */

  lemma StepTree(transform: Rewrite, entries: seq<Node>, i: nat, destDir: Path, basePath: string)
    requires i < |entries|
    ensures TreeWrites(transform, entries[..i + 1], destDir, basePath)
            == TreeWrites(transform, entries[..i], destDir, basePath) + EntryWrites(transform, entries[i], destDir, basePath)
    ensures TreeDirs(entries[..i + 1], destDir) == TreeDirs(entries[..i], destDir) + EntryDirs(entries[i], destDir)
  {
    var s := entries[..i + 1];
    assert s[..|s| - 1] == entries[..i] && s[|s| - 1] == entries[i];
  }

  /** `processDirectory(sourceDir, destDir, basePath)`: every entry in
      `readdirSync` order; subdirectories are made and walked, `.md` files
      are rewritten to the mirrored path, anything else is skipped. */
  method ProcessDirectory(dest: Destination, transform: Rewrite, entries: seq<Node>, destDir: Path, basePath: string)
    requires dest.Valid() && |destDir| >= 1
    modifies dest
    ensures dest.Valid()
    ensures dest.dirs == old(dest.dirs) + TreeDirs(entries, destDir)
    ensures dest.files == old(dest.files) + TreeWrites(transform, entries, destDir, basePath)
    decreases entries
  {
    for i := 0 to |entries|
      invariant dest.Valid()
      invariant dest.dirs == old(dest.dirs) + TreeDirs(entries[..i], destDir)
      invariant dest.files == old(dest.files) + TreeWrites(transform, entries[..i], destDir, basePath)
    {
      StepTree(transform, entries, i, destDir, basePath);
      ghost var files0 := dest.files;
      ProcessEntry(dest, transform, entries[i], destDir, basePath);
      UnionAssociates(old(dest.files), TreeWrites(transform, entries[..i], destDir, basePath), EntryWrites(transform, entries[i], destDir, basePath));
    }
    assert entries[..|entries|] == entries;
  }

  /** One turn of the loop in `processDirectory`. */
  method ProcessEntry(dest: Destination, transform: Rewrite, e: Node, destDir: Path, basePath: string)
    requires dest.Valid() && |destDir| >= 1
    modifies dest
    ensures dest.Valid()
    ensures dest.dirs == old(dest.dirs) + EntryDirs(e, destDir)
    ensures dest.files == old(dest.files) + EntryWrites(transform, e, destDir, basePath)
    decreases e
  {
    match e
    case Dir(name, children) =>
      var newDestDir := destDir + [name];
      dest.MakeDirectory(newDestDir);
      ProcessDirectory(dest, transform, children, newDestDir, Join(basePath, name));
    case File(name, content) =>
      if IsMarkdown(name) {
        var relativePath := Join(basePath, name);
        WriteMarkdown(dest, destDir, name, transform(content, relativePath));
      }
  }

  /** The `.md` branch: `mkdirSync(dirname(destPath))`, then `writeFileSync(destPath, …)`. */
  method WriteMarkdown(dest: Destination, destDir: Path, name: string, transformed: string)
    requires dest.Valid() && |destDir| >= 1
    modifies dest
    ensures dest.Valid()
    ensures dest.dirs == old(dest.dirs) + Prefixes(destDir)
    ensures dest.files == old(dest.files) + map[destDir + [name] := transformed]
  {
    var destPath := destDir + [name];
    assert destPath[..|destPath| - 1] == destDir;
    dest.MakeDirectory(destDir);
    assert destDir[..|destDir|] == destDir;
    ghost var before := dest.files;
    dest.WriteFile(destPath, transformed);
    UpdateIsUnion(before, destPath, transformed);
  }

  /** The script's top level: the destination root is made, then the source root is walked. */
  method Migrate(dest: Destination, transform: Rewrite, sourceRoot: seq<Node>, destRoot: Path)
    requires dest.Valid() && |destRoot| >= 1
    modifies dest
    ensures dest.Valid()
    ensures dest.dirs == old(dest.dirs) + Prefixes(destRoot) + TreeDirs(sourceRoot, destRoot)
    ensures dest.files == old(dest.files) + TreeWrites(transform, sourceRoot, destRoot, "")
  {
    dest.MakeDirectory(destRoot);
    ProcessDirectory(dest, transform, sourceRoot, destRoot, "");
  }

  /** `scripts/migrate-docs.ts` run on a source tree. */
  method MigrateDocsTree(dest: Destination, sourceRoot: seq<Node>, destRoot: Path)
    requires dest.Valid() && |destRoot| >= 1
    modifies dest
    ensures dest.Valid()
    ensures dest.dirs == old(dest.dirs) + Prefixes(destRoot) + TreeDirs(sourceRoot, destRoot)
    ensures dest.files == old(dest.files) + TreeWrites(DocsRewrite(), sourceRoot, destRoot, "")
  {
    Migrate(dest, DocsRewrite(), sourceRoot, destRoot);
  }

  /** `scripts/migrate-about.ts` run on a source tree. */
  method MigrateAboutTree(dest: Destination, sourceRoot: seq<Node>, destRoot: Path)
    requires dest.Valid() && |destRoot| >= 1
    modifies dest
    ensures dest.Valid()
    ensures dest.dirs == old(dest.dirs) + Prefixes(destRoot) + TreeDirs(sourceRoot, destRoot)
    ensures dest.files == old(dest.files) + TreeWrites(AboutRewrite(), sourceRoot, destRoot, "")
  {
    Migrate(dest, AboutRewrite(), sourceRoot, destRoot);
  }

  /* ---------------------------------------------------------------------- */
  /* The source tree, described independently of the walk                 */
  /* ---------------------------------------------------------------------- */

  /** What `readdirSync` can return: non-empty names, distinct within each directory. */
  predicate WellFormed(entries: seq<Node>)
    decreases entries
  {
    && (forall i | 0 <= i < |entries| :: entries[i].name != "" && EntryWellFormed(entries[i]))
    && (forall i, j | 0 <= i < j < |entries| :: entries[i].name != entries[j].name)
  }

  predicate EntryWellFormed(e: Node)
    decreases e
  {
    e.Dir? ==> WellFormed(e.children)
  }

  /** The tree holds a file with content `content` at the relative path `q`. */
  predicate HasFile(entries: seq<Node>, q: Path, content: string)
    decreases entries
  {
    exists i | 0 <= i < |entries| :: EntryHasFile(entries[i], q, content)
  }

  predicate EntryHasFile(e: Node, q: Path, content: string)
    decreases e
  {
    match e
    case File(name, c) => q == [name] && c == content
    case Dir(name, children) => |q| >= 2 && q[0] == name && HasFile(children, q[1..], content)
  }

  /** The tree holds a directory at the relative path `q`. */
  predicate HasDir(entries: seq<Node>, q: Path)
    decreases entries
  {
    exists i | 0 <= i < |entries| :: EntryHasDir(entries[i], q)
  }

  predicate EntryHasDir(e: Node, q: Path)
    decreases e
  {
    e.Dir? && |q| >= 1 && q[0] == e.name && (|q| == 1 || HasDir(e.children, q[1..]))
  }

  /** The path of a file relative to the source root, as `path.join` builds it. */
  function RelativePath(basePath: string, q: Path): string
    requires |q| >= 1
  {
    Join(basePath, JoinWith(q, '/'))
  }

  /* ---------------------------------------------------------------------- */
  /* Properties of the walk                                                  */
  /* ---------------------------------------------------------------------- */

  lemma JoinNested(basePath: string, name: string, rest: string)
    requires name != ""
    ensures Join(Join(basePath, name), rest) == Join(basePath, name + "/" + rest)
  {
  }

  lemma RelativePathNested(basePath: string, name: string, q: Path)
    requires name != "" && |q| >= 2 && q[0] == name
    ensures RelativePath(Join(basePath, name), q[1..]) == RelativePath(basePath, q)
  {
    JoinNested(basePath, name, JoinWith(q[1..], '/'));
  }

  lemma WellFormedPrefix(entries: seq<Node>)
    requires WellFormed(entries) && entries != []
    ensures WellFormed(entries[..|entries| - 1])
    ensures forall i | 0 <= i < |entries| - 1 :: entries[i].name != entries[|entries| - 1].name
  {
    var init := entries[..|entries| - 1];
    assert forall i | 0 <= i < |init| :: init[i] == entries[i];
  }

  /** Every file written comes from a Markdown file of the source tree, at the
      mirrored path, rewritten with its path relative to the source root. */
  lemma {:induction false} TreeWritesSound(transform: Rewrite, entries: seq<Node>, destDir: Path, basePath: string, p: Path)
    requires WellFormed(entries)
    requires p in TreeWrites(transform, entries, destDir, basePath)
    ensures |p| > |destDir| && p[..|destDir|] == destDir && IsMarkdown(p[|p| - 1])
    ensures exists c :: HasFile(entries, p[|destDir|..], c)
                        && TreeWrites(transform, entries, destDir, basePath)[p]
                           == transform(c, RelativePath(basePath, p[|destDir|..]))
    decreases entries
  {
    var init := entries[..|entries| - 1];
    var last := entries[|entries| - 1];
    WellFormedPrefix(entries);
    if p in EntryWrites(transform, last, destDir, basePath) {
      EntryWritesSound(transform, last, destDir, basePath, p);
      var q := p[|destDir|..];
      var c :| EntryHasFile(last, q, c)
               && EntryWrites(transform, last, destDir, basePath)[p] == transform(c, RelativePath(basePath, q));
      assert HasFile(entries, q, c);
    } else {
      TreeWritesSound(transform, init, destDir, basePath, p);
      var q := p[|destDir|..];
      var c :| HasFile(init, q, c)
               && TreeWrites(transform, init, destDir, basePath)[p] == transform(c, RelativePath(basePath, q));
      var i :| 0 <= i < |init| && EntryHasFile(init[i], q, c);
      assert EntryHasFile(entries[i], q, c);
    }
  }

  lemma {:induction false} EntryWritesSound(transform: Rewrite, e: Node, destDir: Path, basePath: string, p: Path)
    requires e.name != "" && EntryWellFormed(e)
    requires p in EntryWrites(transform, e, destDir, basePath)
    ensures |p| > |destDir| && p[..|destDir|] == destDir && p[|destDir|] == e.name && IsMarkdown(p[|p| - 1])
    ensures exists c :: EntryHasFile(e, p[|destDir|..], c)
                        && EntryWrites(transform, e, destDir, basePath)[p]
                           == transform(c, RelativePath(basePath, p[|destDir|..]))
    decreases e
  {
    match e
    case File(name, content) =>
      assert p == destDir + [name];
      assert p[|destDir|..] == [name];
      assert EntryHasFile(e, p[|destDir|..], content);
    case Dir(name, children) =>
      TreeWritesSound(transform, children, destDir + [name], Join(basePath, name), p);
      DirWritesSound(transform, name, children, destDir, basePath, p);
  }

  /** What the children of a directory write, seen from the directory's parent. */
  lemma DirWritesSound(transform: Rewrite, name: string, children: seq<Node>, destDir: Path, basePath: string, p: Path)
    requires name != ""
    requires p in TreeWrites(transform, children, destDir + [name], Join(basePath, name))
    requires |p| > |destDir + [name]| && p[..|destDir + [name]|] == destDir + [name] && IsMarkdown(p[|p| - 1])
    requires exists c :: HasFile(children, p[|destDir + [name]|..], c)
                         && TreeWrites(transform, children, destDir + [name], Join(basePath, name))[p]
                            == transform(c, RelativePath(Join(basePath, name), p[|destDir + [name]|..]))
    ensures |p| > |destDir| && p[..|destDir|] == destDir && p[|destDir|] == name
    ensures exists c :: EntryHasFile(Dir(name, children), p[|destDir|..], c)
                        && TreeWrites(transform, children, destDir + [name], Join(basePath, name))[p]
                           == transform(c, RelativePath(basePath, p[|destDir|..]))
  {
    var sub := destDir + [name];
    var q := p[|destDir|..];
    assert p[..|destDir|] == sub[..|destDir|] == destDir;
    assert q[1..] == p[|sub|..];
    RelativePathNested(basePath, name, q);
    var c :| HasFile(children, q[1..], c)
             && TreeWrites(transform, children, sub, Join(basePath, name))[p]
                == transform(c, RelativePath(Join(basePath, name), q[1..]));
    assert EntryHasFile(Dir(name, children), q, c);
  }

  /** An entry writes only below its own name. */
  lemma EntryWritesUnder(transform: Rewrite, e: Node, destDir: Path, basePath: string)
    requires e.name != "" && EntryWellFormed(e)
    ensures forall p | p in EntryWrites(transform, e, destDir, basePath) :: |p| > |destDir| && p[|destDir|] == e.name
  {
    forall p | p in EntryWrites(transform, e, destDir, basePath) ensures |p| > |destDir| && p[|destDir|] == e.name {
      EntryWritesSound(transform, e, destDir, basePath, p);
    }
  }

  /** Every Markdown file of the source tree is written at the mirrored
      path, rewritten with its path relative to the source root. */
  lemma {:induction false} TreeWritesComplete(transform: Rewrite, entries: seq<Node>, destDir: Path, basePath: string, q: Path, c: string)
    requires WellFormed(entries)
    requires |q| >= 1 && HasFile(entries, q, c) && IsMarkdown(q[|q| - 1])
    ensures destDir + q in TreeWrites(transform, entries, destDir, basePath)
    ensures TreeWrites(transform, entries, destDir, basePath)[destDir + q] == transform(c, RelativePath(basePath, q))
    decreases entries
  {
    var init := entries[..|entries| - 1];
    var last := entries[|entries| - 1];
    var i :| 0 <= i < |entries| && EntryHasFile(entries[i], q, c);
    WellFormedPrefix(entries);
    if i == |entries| - 1 {
      EntryWritesComplete(transform, last, destDir, basePath, q, c);
    } else {
      assert EntryHasFile(init[i], q, c);
      TreeWritesComplete(transform, init, destDir, basePath, q, c);
      EntryWritesUnder(transform, last, destDir, basePath);
      assert (destDir + q)[|destDir|] == q[0] == entries[i].name != last.name;
    }
  }

  lemma {:induction false} EntryWritesComplete(transform: Rewrite, e: Node, destDir: Path, basePath: string, q: Path, c: string)
    requires e.name != "" && EntryWellFormed(e)
    requires |q| >= 1 && EntryHasFile(e, q, c) && IsMarkdown(q[|q| - 1])
    ensures destDir + q in EntryWrites(transform, e, destDir, basePath)
    ensures EntryWrites(transform, e, destDir, basePath)[destDir + q] == transform(c, RelativePath(basePath, q))
    decreases e
  {
    match e
    case File(name, content) =>
    case Dir(name, children) =>
      var sub := destDir + [name];
      TreeWritesComplete(transform, children, sub, Join(basePath, name), q[1..], c);
      assert sub + q[1..] == destDir + q;
      RelativePathNested(basePath, name, q);
  }

  /** Every directory of the source tree is mirrored in the destination. */
  lemma {:induction false} TreeDirsComplete(entries: seq<Node>, destDir: Path, q: Path)
    requires HasDir(entries, q)
    ensures destDir + q in TreeDirs(entries, destDir)
    decreases entries
  {
    var i :| 0 <= i < |entries| && EntryHasDir(entries[i], q);
    if i == |entries| - 1 {
      EntryDirsComplete(entries[i], destDir, q);
    } else {
      var init := entries[..|entries| - 1];
      assert EntryHasDir(init[i], q);
      TreeDirsComplete(init, destDir, q);
    }
  }

  lemma {:induction false} EntryDirsComplete(e: Node, destDir: Path, q: Path)
    requires EntryHasDir(e, q)
    ensures destDir + q in EntryDirs(e, destDir)
    decreases e
  {
    var sub := destDir + [e.name];
    if |q| == 1 {
      assert destDir + q == sub;
      PrefixesOfExtension(destDir, e.name);
    } else {
      TreeDirsComplete(e.children, sub, q[1..]);
      assert sub + q[1..] == destDir + q;
    }
  }

  /** The walk makes no directory besides the destination, its parents and the mirrored source directories. */
  lemma {:induction false} TreeDirsSound(entries: seq<Node>, destDir: Path, d: Path)
    requires d in TreeDirs(entries, destDir)
    ensures d in Prefixes(destDir) || (|d| > |destDir| && d[..|destDir|] == destDir && HasDir(entries, d[|destDir|..]))
    decreases entries
  {
    var init := entries[..|entries| - 1];
    var last := entries[|entries| - 1];
    if d in EntryDirs(last, destDir) {
      EntryDirsSound(last, destDir, d);
      if d !in Prefixes(destDir) {
        assert EntryHasDir(entries[|entries| - 1], d[|destDir|..]);
      }
    } else {
      TreeDirsSound(init, destDir, d);
      if d !in Prefixes(destDir) {
        var i :| 0 <= i < |init| && EntryHasDir(init[i], d[|destDir|..]);
        assert EntryHasDir(entries[i], d[|destDir|..]);
      }
    }
  }

  lemma {:induction false} EntryDirsSound(e: Node, destDir: Path, d: Path)
    requires d in EntryDirs(e, destDir)
    ensures d in Prefixes(destDir) || (|d| > |destDir| && d[..|destDir|] == destDir && EntryHasDir(e, d[|destDir|..]))
    decreases e
  {
    match e
    case File(_, _) =>
    case Dir(name, children) =>
      var sub := destDir + [name];
      PrefixesOfExtension(destDir, name);
      if d in Prefixes(sub) {
        if d !in Prefixes(destDir) {
          assert d == sub && d[|destDir|..] == [name];
        }
      } else {
        TreeDirsSound(children, sub, d);
        assert d[..|destDir|] == sub[..|destDir|] == destDir;
        assert d[|destDir|..][1..] == d[|sub|..];
      }
  }
}
