/**
 The validator of request paths: the patterns are compiled once, and a path is checked against
 each of them in turn.
 */
module Validation {
  import EndpointTable
  import opened Endpoints

  class BeaconEndpointValidator {
    const validPaths: seq<Regex>
    ghost const patterns: seq<string>

    /** The patterns, compiled, in order. */
    ghost predicate Valid() {
      IsCompiled(validPaths, patterns)
    }

    constructor ()
      ensures Valid() && patterns == EndpointTable.Patterns()
    {
      var compiled := CompileAll(EndpointTable.Patterns());
      validPaths, patterns := compiled, EndpointTable.Patterns();
    }

    /** A path is valid exactly when some pattern allows its normal form, segment by segment. */
    method IsValidBeaconEndpoint(path: string) returns (ok: bool)
      requires Valid()
      ensures ok <==> AcceptedBy(patterns, path)
    {
      var normal := Normalised(path);
      if normal == "" {
        return false;
      }
      ok := MatchesAny(validPaths, patterns, normal);
    }

    /** The error names the path as it was given; a valid path has none. */
    method GetValidationError(path: string) returns (error: string)
      requires Valid()
      ensures error == "" <==> AcceptedBy(patterns, path)
      ensures !AcceptedBy(patterns, path) ==> error == "Invalid Beacon Chain API endpoint: " + path
    {
      var ok := IsValidBeaconEndpoint(path);
      if !ok {
        return "Invalid Beacon Chain API endpoint: " + path;
      }
      error := "";
    }
  }

  ghost predicate IsCompiled(compiled: seq<Regex>, patterns: seq<string>) {
    |compiled| == |patterns| && forall i :: 0 <= i < |patterns| ==> compiled[i] == Compile(patterns[i])
  }

  method CompileAll(patterns: seq<string>) returns (compiled: seq<Regex>)
    ensures IsCompiled(compiled, patterns)
  {
    compiled := [];
    for i := 0 to |patterns|
      invariant |compiled| == i && forall k :: 0 <= k < i ==> compiled[k] == Compile(patterns[k])
    {
      compiled := compiled + [Compile(patterns[i])];
    }
  }

  /** Matching character by character finds what some pattern allows segment by segment. */
  method MatchesAny(compiled: seq<Regex>, ghost patterns: seq<string>, path: string) returns (ok: bool)
    requires IsCompiled(compiled, patterns)
    ensures ok <==> exists text :: text in patterns && Allows(text, path)
  {
    for i := 0 to |compiled|
      invariant forall k :: 0 <= k < i ==> !Allows(patterns[k], path)
    {
      SegmentsAgree(compiled[i], path);
      if Matches(compiled[i], path) {
        assert Allows(patterns[i], path);
        return true;
      }
    }
    ok := false;
  }
}
