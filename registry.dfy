/**
 * The run-wide allocator of error codes: the counter `nextErrorCode` and the
 * manifest it appends to. The build step keeps both as module-level state,
 * created once per run; here they are the fields of one object.
 */
module Registry {
  import opened Ast
  import opened Manifest

  class ErrorCodeRegistry {
    var nextErrorCode: int
    var manifest: seq<ManifestEntry>

    /**
     * The version entry comes first, the entry for code `i` sits at position
     * `i`, and the next code to hand out is the first one not yet recorded.
     */
    ghost predicate Valid()
      reads this
    {
      WellFormed(manifest) && nextErrorCode == |manifest|
    }

    /** A fresh run: counter at 1, manifest holding only the package version. */
    constructor (version: string)
      ensures Valid()
      ensures nextErrorCode == 1 && manifest == [VersionEntry(version)]
    {
      nextErrorCode := 1;
      manifest := [VersionEntry(version)];
    }

    /**
     * Hands out the current code as a numeric literal, raises the counter by
     * one and appends exactly one entry recording the file and the call.
     */
    method GetErrorCode(file: string, expr: Node) returns (numLit: Node)
      modifies this
      ensures old(Valid()) ==> Valid()
      ensures numLit == NumLit(old(nextErrorCode))
      ensures nextErrorCode == old(nextErrorCode) + 1
      ensures manifest == old(manifest) + [CodeEntry(old(nextErrorCode), FilePrefix + file, expr)]
    {
      numLit := NumLit(nextErrorCode);
      nextErrorCode := nextErrorCode + 1;
      manifest := manifest + [CodeEntry(numLit.value, FilePrefix + file, expr)];
    }
  }
}
