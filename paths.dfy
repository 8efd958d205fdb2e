/** Filesystem paths as the build script uses them (`std::path::Path`):
    a path is the sequence of its components below the root, `join` appends
    the components of a relative path, `parent` drops the last component and
    is absent for the root. A path string is split on `/`, empty segments
    (from `//` or a trailing `/`) being skipped, as `Path::components` does. */
module Paths {
  import opened Wrappers

  type Path = seq<string>

  /** A component is non-empty and holds no separator. */
  predicate WellFormed(p: Path) {
    forall i :: 0 <= i < |p| ==> p[i] != "" && '/' !in p[i]
  }

  /** `Path::join` with a relative path. */
  function Join(base: Path, rel: Path): (r: Path)
    ensures |r| == |base| + |rel| && r[..|base|] == base
  {
    base + rel
  }

  /** `Path::parent`: `None` exactly for the root. */
  function Parent(p: Path): (r: Option<Path>)
    ensures r.Some? <==> p != []
    ensures r.Some? ==> p == r.value + [p[|p| - 1]]
  {
    if p == [] then None else Some(p[..|p| - 1])
  }

  /** `Path::new(s)`: the components of a path string, each non-empty and
      free of separators. */
  function Components(s: string): (p: Path)
    ensures WellFormed(p)
  {
    SegmentsWellFormed(s, "");
    Segments(s, "")
  }

  /** Splits `s` at each `/`, where `pending` is the part of the current
      segment already read. */
  function Segments(s: string, pending: string): Path
    decreases |s|
  {
    if s == [] then Flush(pending)
    else if s[0] == '/' then Flush(pending) + Segments(s[1..], "")
    else Segments(s[1..], pending + [s[0]])
  }

  function Flush(pending: string): Path {
    if pending == "" then [] else [pending]
  }

  /** The string of a path: `/` for the root, else `/` before each component.
      It is an absolute path string; ComponentsOfRender shows it names `p`. */
  function Render(p: Path): (s: string)
    ensures |s| > 0 && s[0] == '/'
  {
    if p == [] then "/" else RenderBelowRoot(p)
  }

  function RenderBelowRoot(p: Path): string {
    if p == [] then "" else "/" + p[0] + RenderBelowRoot(p[1..])
  }

  // ---------------------------------------------------------------------

  /** Every segment the splitter produces is a proper component. */
  lemma {:induction false} SegmentsWellFormed(s: string, pending: string)
    requires '/' !in pending
    ensures WellFormed(Segments(s, pending))
  {
    if s == [] {
    } else if s[0] == '/' {
      SegmentsWellFormed(s[1..], "");
      var rest := Segments(s[1..], "");
      assert Segments(s, pending) == Flush(pending) + rest;
    } else {
      assert '/' !in pending + [s[0]];
      SegmentsWellFormed(s[1..], pending + [s[0]]);
    }
  }

  /** Reading a component without a separator only extends the pending
      segment. */
  lemma {:induction false} SegmentsAcrossComponent(c: string, t: string, pending: string)
    requires '/' !in c
    ensures Segments(c + t, pending) == Segments(t, pending + c)
    decreases |c|
  {
    if c != [] {
      assert (c + t)[0] == c[0] && (c + t)[1..] == c[1..] + t;
      SegmentsAcrossComponent(c[1..], t, pending + [c[0]]);
      assert pending + [c[0]] + c[1..] == pending + c;
    } else {
      assert c + t == t && pending + c == pending;
    }
  }

  lemma {:induction false} SegmentsOfRendered(p: Path, pending: string)
    requires WellFormed(p)
    ensures Segments(RenderBelowRoot(p), pending) == Flush(pending) + p
    decreases |p|
  {
    if p == [] {
    } else {
      var rest := RenderBelowRoot(p[1..]);
      assert RenderBelowRoot(p) == "/" + (p[0] + rest);
      assert ("/" + (p[0] + rest))[1..] == p[0] + rest;
      SegmentsAcrossComponent(p[0], rest, "");
      assert "" + p[0] == p[0];
      SegmentsOfRendered(p[1..], p[0]);
      assert Flush(p[0]) + p[1..] == p;
    }
  }

  /** Parsing the string of a well-formed path gives the path back. */
  lemma {:induction false} ComponentsOfRender(p: Path)
    requires WellFormed(p)
    ensures Components(Render(p)) == p
  {
    if p == [] {
      assert Render(p) == "/";
      assert Segments("/"[1..], "") == [];
    } else {
      SegmentsOfRendered(p, "");
    }
  }
}
