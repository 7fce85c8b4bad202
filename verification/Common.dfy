/** What several components share. */
module Common {

  datatype Option<T> = None | Some(value: T)

  /** A disk, file or buffer with the elements from `at` on replaced. */
  function Spliced<T>(disk: seq<T>, at: nat, data: seq<T>): (r: seq<T>)
    requires at + |data| <= |disk|
    ensures |r| == |disk|
    ensures forall p :: 0 <= p < |disk| ==> r[p] == if at <= p < at + |data| then data[p - at] else disk[p]
  {
    disk[..at] + data + disk[at + |data|..]
  }
}
