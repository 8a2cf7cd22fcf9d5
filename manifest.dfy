/**
 * The error-code manifest: a leading version entry followed by one entry per
 * handed-out code, each recording the file and the original call expression.
 */
module Manifest {
  import opened Ast

  /** Prepended to the relative path of every file recorded in the manifest. */
  const FilePrefix := "@apollo/client/"

  datatype ManifestEntry =
    | VersionEntry(version: string)
    | CodeEntry(code: int, file: string, node: Node)

  /** The result of rewriting one node: the new node and the entries it appended. */
  datatype Step = Step(node: Node, entries: seq<ManifestEntry>)

  /** The result of rewriting a sequence of sibling nodes. */
  datatype Steps = Steps(nodes: seq<Node>, entries: seq<ManifestEntry>)

  /** `es` are code entries for `file`, numbered `from`, `from + 1`, ... without gaps. */
  ghost predicate Numbered(es: seq<ManifestEntry>, from: int, file: string)
  {
    forall i :: 0 <= i < |es| ==> es[i].CodeEntry? && es[i].code == from + i && es[i].file == file
  }

  /**
   * A manifest as the build step keeps it: the version entry first, then the
   * entry for code `i` at position `i`. The next code to hand out is `|m|`.
   */
  ghost predicate WellFormed(m: seq<ManifestEntry>)
  {
    && |m| >= 1
    && m[0].VersionEntry?
    && forall i :: 1 <= i < |m| ==> m[i].CodeEntry? && m[i].code == i
  }

  lemma NumberedConcat(a: seq<ManifestEntry>, b: seq<ManifestEntry>, from: int, file: string)
    requires Numbered(a, from, file) && Numbered(b, from + |a|, file)
    ensures Numbered(a + b, from, file)
  {
    forall i | 0 <= i < |a + b|
      ensures (a + b)[i].CodeEntry? && (a + b)[i].code == from + i && (a + b)[i].file == file
    {
      if i >= |a| {
        assert (a + b)[i] == b[i - |a|];
      }
    }
  }

  /** Appending entries numbered from the next free code keeps the manifest well formed. */
  lemma AppendKeepsWellFormed(m: seq<ManifestEntry>, es: seq<ManifestEntry>, file: string)
    requires WellFormed(m) && Numbered(es, |m|, file)
    ensures WellFormed(m + es)
    ensures (m + es)[..|m|] == m
  {
    forall i | 1 <= i < |m + es|
      ensures (m + es)[i].CodeEntry? && (m + es)[i].code == i
    {
      if i >= |m| {
        assert (m + es)[i] == es[i - |m|];
      }
    }
  }

  /**
   * The codes recorded after the version entry of a well-formed manifest are
   * strictly ascending and lie in 1 .. |m| - 1, so none is used twice.
   */
  lemma WellFormedCodes(m: seq<ManifestEntry>)
    requires WellFormed(m)
    ensures forall i :: 1 <= i < |m| ==> 1 <= m[i].code < |m|
    ensures forall i, j :: 1 <= i < j < |m| ==> m[i].code < m[j].code
  {
  }
}
