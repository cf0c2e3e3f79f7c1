/** The bucket listing of demo.js: the page shows the names of the buckets the
    storage service returned, in the order it returned them. */
module BucketRoute {

  /** A bucket as the listing returns it; the creation date is carried along
      untouched. */
  datatype Bucket<D> = Bucket(name: string, creationDate: D)

  /** The names shown on the page: one per bucket, in the listing's order. */
  function BucketNames<D>(buckets: seq<Bucket<D>>): (names: seq<string>)
    ensures |names| == |buckets|
    ensures forall i :: 0 <= i < |buckets| ==> names[i] == buckets[i].name
  {
    if |buckets| == 0 then []
    else BucketNames(buckets[..|buckets| - 1]) + [buckets[|buckets| - 1].name]
  }
}
