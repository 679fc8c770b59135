/** The six data channels and the allocation rule shared by the satellite's uplink side
    (SatelliteSim/simulator.cpp) and its downlink manager (SatelliteSim/downlinkmanager.cpp). */
module DcChannels {
  const CHANNELS: int := 6

  /** The least free channel, or -1 when all six are taken. */
  function LeastFree(occupied: set<int>): (c: int)
    ensures c == -1 <==> forall d :: 0 <= d < CHANNELS ==> d in occupied
    ensures c != -1 ==> 0 <= c < CHANNELS && c !in occupied && forall d :: 0 <= d < c ==> d in occupied
  {
    FreeFrom(occupied, 0)
  }

  function FreeFrom(occupied: set<int>, i: int): (c: int)
    requires 0 <= i <= CHANNELS
    ensures c == -1 <==> forall d :: i <= d < CHANNELS ==> d in occupied
    ensures c != -1 ==> i <= c < CHANNELS && c !in occupied && forall d :: i <= d < c ==> d in occupied
    decreases CHANNELS - i
  {
    if i == CHANNELS then -1 else if i !in occupied then i else FreeFrom(occupied, i + 1)
  }

  /** The search loop both allocators run. */
  method FindFree(occupied: set<int>) returns (c: int)
    ensures c == LeastFree(occupied)
  {
    for i := 0 to CHANNELS
      invariant LeastFree(occupied) == FreeFrom(occupied, i)
    {
      if i !in occupied {
        return i;
      }
    }
    return -1;
  }

  /** Removing a channel that is not taken changes nothing. */
  function Released(occupied: set<int>, channel: int): set<int> {
    if channel in occupied then occupied - {channel} else occupied
  }
}
