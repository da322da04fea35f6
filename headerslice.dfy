/**
 * headerSlice of flags.go and cmd/root.go: the value of the repeatable
 * `-H` flag, a list of header lines that grows by one with each use.
 */
module HeaderSlices {
  import opened Wrappers

  class HeaderSlice {
    var values: seq<string>

    constructor ()
      ensures values == []
    {
      values := [];
    }

    /** headerSlice.Set: appends the value and never fails. */
    method Set(value: string) returns (err: Option<string>)
      modifies this
      ensures values == old(values) + [value]
      ensures err == None
    {
      values := values + [value];
      err := None;
    }
  }
}
