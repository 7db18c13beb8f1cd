/** What the ranks' collective operations mean. */
module Collectives {

  /** MPI_Allgatherv and MPI_Gatherv: the buffers one after another in rank order. */
  function AllGather<T(!new)>(bufs: seq<seq<T>>): (all: seq<T>)
    ensures forall v :: v in all <==> exists r :: 0 <= r < |bufs| && v in bufs[r]
  {
    if |bufs| == 0 then []
    else
      var init := bufs[..|bufs|-1];
      var all := AllGather(init) + bufs[|bufs|-1];
      assert forall r :: 0 <= r < |init| ==> init[r] == bufs[r];
      all
  }

  lemma GatherOneMore<T(!new)>(bufs: seq<seq<T>>, b: seq<T>)
    ensures AllGather(bufs + [b]) == AllGather(bufs) + b
  {
    assert (bufs + [b])[..|bufs|] == bufs;
  }
}
