/**
  The page the controller drives, reduced to the `value` of each element,
  keyed by element id. An element never written reads as the empty string.
 */
module Dom {
  import opened Numeric

  type Dom = map<string, string>

  function Read(d: Dom, id: string): string {
    if id in d then d[id] else ""
  }

  /** Setting one element's value changes that element only. */
  function Write(d: Dom, id: string, v: string): (d': Dom)
    ensures Read(d', id) == v
    ensures forall other :: other != id ==> Read(d', other) == Read(d, other)
  {
    d[id := v]
  }

  /** An element's value through `strconv.ParseUint(…, 10, 32)`, error discarded. */
  function ReadUint32(d: Dom, id: string): (n: nat)
    ensures n <= MaxUint32
  {
    ParseUint32(Read(d, id))
  }

  /** An element's value through `strconv.ParseInt(…, 10, 32)`, error discarded. */
  function ReadInt32(d: Dom, id: string): (n: int)
    ensures -(Two31 as int) <= n < Two31
  {
    ParseInt32(Read(d, id))
  }
}
