/**
 * The file system as the migration scripts see it: a source tree read with
 * `readdirSync`/`statSync`/`readFileSync`, and a destination that
 * `mkdirSync(…, { recursive: true })` and `writeFileSync` change in place.
 */
module FileTree {
  import opened Strings

  /** An entry of a source directory, in `readdirSync` order. */
  datatype Node = File(name: string, content: string) | Dir(name: string, children: seq<Node>)

  /** A destination location, as its path segments. */
  type Path = seq<string>

  /** The scripts' test for a Markdown file: `name.endsWith('.md')`. */
  predicate IsMarkdown(name: string) {
    EndsWith(name, ".md")
  }

  /** `path.join(a, b)` for a relative segment `b`: no separator after an empty base. */
  function Join(a: string, b: string): (r: string)
    ensures a == "" ==> r == b
    ensures a != "" ==> |r| == |a| + 1 + |b| && StartsWith(r, a) && r[|a|] == '/' && r[|a| + 1..] == b
  {
    if a == "" then b else a + "/" + b
  }

  /** The directories `mkdirSync(p, { recursive: true })` makes sure exist:
      `p` and every directory above it. */
  function Prefixes(p: Path): (r: set<Path>)
    ensures forall q :: q in r <==> 1 <= |q| <= |p| && q == p[..|q|]
  {
    set i | 1 <= i <= |p| :: p[..i]
  }

  lemma PrefixesOfExtension(p: Path, name: string)
    ensures Prefixes(p + [name]) == Prefixes(p) + {p + [name]}
  {
    var q := p + [name];
    assert q[..|q|] == q;
    forall i | 1 <= i <= |p| ensures q[..i] == p[..i] {
    }
  }

  /** Writing one file is a union with a one-entry map. */
  lemma UpdateIsUnion(m: map<Path, string>, p: Path, v: string)
    ensures m[p := v] == m + map[p := v]
  {
  }

  lemma UnionAssociates(a: map<Path, string>, b: map<Path, string>, c: map<Path, string>)
    ensures (a + b) + c == a + (b + c)
  {
  }

  /** The destination: its directories and its files with their contents. */
  class Destination {
    var dirs: set<Path>
    var files: map<Path, string>

    /** Every directory's parents exist, and every file sits in a directory. */
    predicate Valid()
      reads this
    {
      && (forall d | d in dirs :: Prefixes(d) <= dirs)
      && (forall p | p in files :: |p| >= 2 && p[..|p| - 1] in dirs)
    }

    constructor ()
      ensures Valid() && dirs == {} && files == map[]
    {
      dirs := {};
      files := map[];
    }

    /** `mkdirSync(p, { recursive: true })`: `p` and its parents exist afterwards; files are untouched. */
    method MakeDirectory(p: Path)
      requires Valid()
      modifies this
      ensures Valid()
      ensures dirs == old(dirs) + Prefixes(p) && files == old(files)
    {
      forall d | d in Prefixes(p) ensures Prefixes(d) <= Prefixes(p) {
        forall q | q in Prefixes(d) ensures q in Prefixes(p) {
          assert q == p[..|q|];
        }
      }
      dirs := dirs + Prefixes(p);
    }

    /** `writeFileSync(p, content)`: creates or replaces the file; its
        directory must exist already. */
    method WriteFile(p: Path, content: string)
      requires Valid() && |p| >= 2 && p[..|p| - 1] in dirs
      modifies this
      ensures Valid()
      ensures files == old(files)[p := content] && dirs == old(dirs)
    {
      files := files[p := content];
    }
  }
}
