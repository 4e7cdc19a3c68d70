/** Present or absent, for the source's None; and an element of a set. */
module Wrappers {
  datatype Option<+T> = None | Some(value: T) {
    function GetOr(default: T): T {
      if Some? then value else default
    }
  }

  ghost function Pick<T>(s: set<T>): (x: T)
    requires s != {}
    ensures x in s
  {
    var x :| x in s; x
  }
}
