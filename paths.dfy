/**
 * Absolute paths as strings, and the three path operations the scanner uses:
 * `join(path, "..")`, `join(path, name)` and `basename(path)`, together with
 * the strict string-prefix boundary test against the stop path.
 *
 * Paths are assumed to be already resolved: absolute, without "." or ".."
 * components and without a trailing separator (except the root "/").
 */
module Paths {

  type Path = string

  /** A deletion decision: a path and whether it names a directory. */
  datatype Entry = Entry(path: Path, isDirectory: bool)

  /** Position of the last separator in `p`, or -1 when `p` has none. */
  function LastSlash(p: string): (r: int)
    ensures -1 <= r < |p|
    ensures r >= 0 ==> p[r] == '/'
    ensures forall j :: r < j < |p| ==> p[j] != '/'
  {
    if p == [] then -1
    else if p[|p| - 1] == '/' then |p| - 1
    else LastSlash(p[..|p| - 1])
  }

  /** `join(p, "..")`: drop the last component; the parent of a top-level path is the root. */
  function Parent(p: Path): Path
  {
    var i := LastSlash(p);
    if i < 0 then "." else if i == 0 then "/" else p[..i]
  }

  /** `basename(p)`: the text after the last separator. */
  function Basename(p: Path): string
  {
    p[LastSlash(p) + 1..]
  }

  /** `join(p, name)` for a directory entry name. */
  function Join(p: Path, name: string): Path
  {
    if p != [] && p[|p| - 1] == '/' then p + name else p + "/" + name
  }

  /**
   * `p.length` in JavaScript: the number of UTF-16 code units, two for a
   * character above U+FFFF (a surrogate pair) and one for any other.
   */
  function Utf16Length(p: string): nat
  {
    if p == [] then 0 else (if p[0] as int > 0xFFFF then 2 else 1) + Utf16Length(p[1..])
  }

  /** A string prefix is no longer in code units, and as long only when it is the whole string. */
  lemma {:induction false} Utf16Prefix(a: string, b: string)
    requires a <= b
    ensures Utf16Length(a) <= Utf16Length(b)
    ensures Utf16Length(a) == Utf16Length(b) ==> a == b
  {
    if a == [] {
      if b != [] {
        assert Utf16Length(b) >= 1;
      }
    } else {
      assert a[1..] <= b[1..];
      Utf16Prefix(a[1..], b[1..]);
      assert a == [a[0]] + a[1..] && b == [b[0]] + b[1..];
    }
  }

  /** A path as `path.resolve` produces it: the root, or no trailing separator. */
  predicate Normalized(p: Path)
  {
    p == "/" || (p != [] && p[|p| - 1] != '/')
  }

  /** `belowStop`: `p` is not the stop path and starts with it. */
  predicate BelowStop(stop: Path, p: Path)
  {
    p != stop && stop <= p
  }

  lemma BelowStopIsStrictPrefix(stop: Path, p: Path)
    ensures BelowStop(stop, p) <==> (|stop| < |p| && p[..|stop|] == stop)
    ensures !BelowStop(stop, stop)
  {
  }

  /** The upward walk terminates: a path below a non-empty stop has a shorter parent. */
  lemma ParentShorter(stop: Path, p: Path)
    requires |stop| > 0 && BelowStop(stop, p)
    ensures |Parent(p)| < |p|
  {
  }

  /** The parent of a path is one of its string prefixes, except for a relative name. */
  lemma ParentIsPrefix(p: Path)
    requires LastSlash(p) >= 0
    ensures Parent(p) <= p
  {
  }

  /** A child entry of a directory below stop is itself below stop, and longer when named. */
  lemma JoinBelowStop(stop: Path, p: Path, name: string)
    requires BelowStop(stop, p)
    ensures BelowStop(stop, Join(p, name))
    ensures name != [] ==> |Join(p, name)| > |p|
  {
    assert p <= Join(p, name);
  }

  /** `basename` of a name without separators is the name itself. */
  lemma BasenameOfName(name: string)
    requires forall j :: 0 <= j < |name| ==> name[j] != '/'
    ensures Basename(name) == name
  {
    if LastSlash(name) >= 0 {
      assert false;
    }
    assert name[0..] == name;
  }

  /** The doubled `basename(basename(p))` of the resolver is `basename(p)`. */
  lemma BasenameIdempotent(p: Path)
    ensures Basename(Basename(p)) == Basename(p)
  {
    var i := LastSlash(p);
    var b := p[i + 1..];
    assert Basename(p) == b;
    forall j | 0 <= j < |b| ensures b[j] != '/' {
      assert b[j] == p[i + 1 + j];
    }
    BasenameOfName(b);
  }

  /** Joining a separator-free name and going up again returns the directory and the name. */
  lemma JoinThenSplit(p: Path, name: string)
    requires Normalized(p)
    requires name != [] && forall j :: 0 <= j < |name| ==> name[j] != '/'
    ensures Parent(Join(p, name)) == p
    ensures Basename(Join(p, name)) == name
  {
    var c := Join(p, name);
    var sep := |c| - |name| - 1;
    assert c[sep] == '/';
    assert c[sep + 1..] == name;
    forall j | sep < j < |c| ensures c[j] != '/' {
      assert c[j] == name[j - sep - 1];
    }
    var i := LastSlash(c);
    assert i == sep by {
      if i < sep {
        assert false;
      }
    }
    if p == "/" {
      assert c == "/" + name;
    } else {
      assert c == p + "/" + name;
      assert c[..sep] == p;
    }
  }

  /**
   * The positions the upward walk visits from `p`: `p`, its parent, and so on,
   * for as long as the position is below stop.
   */
  function Chain(stop: Path, p: Path): (c: seq<Path>)
    requires |stop| > 0
    ensures forall q :: q in c ==> BelowStop(stop, q) && q <= p
    ensures forall i, j :: 0 <= i < j < |c| ==> |c[j]| < |c[i]|
    ensures BelowStop(stop, p) ==> c != [] && c[0] == p
    decreases |p|
  {
    if !BelowStop(stop, p) then []
    else
      ParentShorter(stop, p);
      var rest := Chain(stop, Parent(p));
      assert rest != [] ==> LastSlash(p) >= 0 && Parent(p) <= p by {
        if rest != [] {
          assert BelowStop(stop, Parent(p));
          if LastSlash(p) < 0 {
            assert false;
          }
          ParentIsPrefix(p);
        }
      }
      [p] + rest
  }

  /**
   * A consequence of the string-prefix test: a sibling whose name extends the
   * stop directory's name counts as below stop.
   */
  lemma SiblingCountsAsBelow()
    ensures BelowStop("/x/a2", "/x/a20")
    ensures Parent("/x/a20") == "/x" && !BelowStop("/x/a2", "/x")
  {
    assert "/x/a2" <= "/x/a20";
    JoinThenSplit("/x", "a20");
    assert Join("/x", "a20") == "/x/a20";
  }

  /** Nothing above a position that is not below stop is below stop. */
  lemma NoChainAbove(stop: Path, p: Path)
    requires |stop| > 0 && !BelowStop(stop, p)
    ensures Chain(stop, Parent(p)) == []
  {
    if LastSlash(p) >= 0 {
      ParentIsPrefix(p);
    }
  }

  /** A child path written out: joining and splitting it again give back its parts. */
  lemma ChildPath(p: Path, name: string, c: Path)
    requires p != [] && p != "/" && p[|p| - 1] != '/'
    requires name != [] && forall j :: 0 <= j < |name| ==> name[j] != '/'
    requires c == p + "/" + name
    ensures Join(p, name) == c && Parent(c) == p && Basename(c) == name
  {
    JoinThenSplit(p, name);
  }
}
