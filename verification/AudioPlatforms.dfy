/** The compatibility tables of the supported platforms, under the arbiter of AudioPaths. */
module AudioPlatforms {
  import opened AudioPaths

  const SOURCE_MIC: int := 0
  const SOURCE_RTX: int := 1
  const SOURCE_MCU: int := 2
  const SINK_SPK: int := 0
  const SINK_RTX: int := 1

  /** The platform without audio: nothing is compatible. */
  const STUB: Platform := (s1: int, k1: int, s2: int, k2: int) => false

  /** Connections are compatible when they share neither end. */
  const CS7000: Platform := (s1: int, k1: int, s2: int, k2: int) => s1 != s2 && k1 != k2

  /** Only receiving to the speaker and transmitting from the microphone go together. */
  const TTWRPLUS: Platform := (s1: int, k1: int, s2: int, k2: int) =>
    (s1 * 3 + k1 == 3 && s2 * 3 + k2 == 1) || (s1 * 3 + k1 == 1 && s2 * 3 + k2 == 3)

  /** Rows and columns in the order MIC, RTX, MCU by SPK, RTX, MCU, as the Linux, GDx and Mod17 targets have it. */
  const MATRIX: seq<seq<int>> := [
    [0, 0, 0, 1, 0, 1, 1, 0, 1],
    [0, 0, 0, 0, 1, 1, 0, 1, 1],
    [0, 0, 0, 1, 1, 0, 1, 1, 0],
    [0, 1, 1, 0, 0, 0, 0, 1, 1],
    [1, 0, 1, 0, 0, 0, 1, 0, 1],
    [1, 1, 0, 0, 0, 0, 1, 1, 0],
    [0, 1, 1, 0, 1, 1, 0, 0, 0],
    [1, 0, 1, 1, 0, 1, 0, 0, 0],
    [1, 1, 0, 1, 1, 0, 0, 0, 0]
  ]

  /** The MDx target's matrix, which also keeps the microphone and the memory from transmitting together. */
  const MDX_MATRIX: seq<seq<int>> := [
    [0, 0, 0, 1, 0, 1, 1, 0, 1],
    [0, 0, 0, 0, 1, 1, 0, 0, 1],
    [0, 0, 0, 1, 1, 0, 1, 1, 0],
    [0, 1, 1, 0, 0, 0, 0, 1, 1],
    [1, 0, 1, 0, 0, 0, 1, 0, 1],
    [1, 1, 0, 0, 0, 0, 1, 1, 0],
    [0, 1, 1, 0, 1, 1, 0, 0, 0],
    [0, 0, 1, 1, 0, 1, 0, 0, 0],
    [1, 1, 0, 1, 1, 0, 0, 0, 0]
  ]

  function TableOf(m: seq<seq<int>>): Platform
    requires |m| == 9 && forall i | 0 <= i < 9 :: |m[i]| == 9
  {
    (s1: int, k1: int, s2: int, k2: int) =>
      var p1, p2 := s1 * 3 + k1, s2 * 3 + k2;
      0 <= p1 < 9 && 0 <= p2 < 9 && m[p1][p2] == 1
  }

  const LINUX: Platform := TableOf(MATRIX)
  const MDX: Platform := TableOf(MDX_MATRIX)

  /** Without compatible connections the arbiter keeps at most one open, and connected. */
  lemma StubIsAlwaysRight()
    ensures AlwaysCompatible(STUB) && AlwaysConnected(STUB)
  {
    CompatibleExactlyIf(STUB);
    ConnectedExactlyIf(STUB);
  }

  /** The paths of the runs below. */
  function RtxToSpk(priority: int): Path {
    Path(SOURCE_RTX, SINK_SPK, priority)
  }

  function McuToSpk(priority: int): Path {
    Path(SOURCE_MCU, SINK_SPK, priority)
  }

  function McuToRtx(priority: int): Path {
    Path(SOURCE_MCU, SINK_RTX, priority)
  }

  function MicToSpk(priority: int): Path {
    Path(SOURCE_MIC, SINK_SPK, priority)
  }

  function MicToRtx(priority: int): Path {
    Path(SOURCE_MIC, SINK_RTX, priority)
  }

  /** A route that shares its sink with one connection and its source with another separates them. */
  lemma Cs7000OpensIncompatibles()
    ensures !PairwiseCompatible(CS7000, Run(CS7000, Trap(McuToSpk(1), RtxToSpk(2), McuToRtx(1))))
    ensures Genuine(Trap(McuToSpk(1), RtxToSpk(2), McuToRtx(1))) && !AlwaysCompatible(CS7000)
  {
    TrapCatches(CS7000, McuToSpk(1), RtxToSpk(2), McuToRtx(1));
    TrapIsGenuine(McuToSpk(1), RtxToSpk(2), McuToRtx(1));
    hide Run;
  }

  /** The receiver's path to the speaker is open, and no connection is there. */
  lemma Cs7000CutsOffTheReceiver()
    ensures var t := Run(CS7000, TwinTrap(RtxToSpk(1), McuToSpk(2), McuToRtx(3)));
            StatusOf(t, 1) == Open && t.active == {1} && t.connected == {}
    ensures Genuine(TwinTrap(RtxToSpk(1), McuToSpk(2), McuToRtx(3))) && !AlwaysConnected(CS7000)
  {
    TwinTrapCutsOff(CS7000, RtxToSpk(1), McuToSpk(2), McuToRtx(3));
    TrapIsGenuine(RtxToSpk(1), McuToSpk(2), McuToRtx(3));
    hide Run;
  }

  lemma TtwrPlusOpensIncompatibles()
    ensures !PairwiseCompatible(TTWRPLUS, Run(TTWRPLUS, Trap(MicToSpk(1), RtxToSpk(2), MicToRtx(1))))
    ensures Genuine(Trap(MicToSpk(1), RtxToSpk(2), MicToRtx(1))) && !AlwaysCompatible(TTWRPLUS)
  {
    TrapCatches(TTWRPLUS, MicToSpk(1), RtxToSpk(2), MicToRtx(1));
    TrapIsGenuine(MicToSpk(1), RtxToSpk(2), MicToRtx(1));
    hide Run;
  }

  lemma TtwrPlusCutsOffTheReceiver()
    ensures var t := Run(TTWRPLUS, TwinTrap(RtxToSpk(1), McuToSpk(2), MicToRtx(3)));
            StatusOf(t, 1) == Open && t.active == {1} && t.connected == {}
    ensures Genuine(TwinTrap(RtxToSpk(1), McuToSpk(2), MicToRtx(3))) && !AlwaysConnected(TTWRPLUS)
  {
    TwinTrapCutsOff(TTWRPLUS, RtxToSpk(1), McuToSpk(2), MicToRtx(3));
    TrapIsGenuine(RtxToSpk(1), McuToSpk(2), MicToRtx(3));
    hide Run;
  }

  /** The first two rows of a matrix are in the opposite order to its columns. */
  predicate RowsSwapped(m: seq<seq<int>>) {
    && |m| == 9 && (forall i | 0 <= i < 9 :: |m[i]| == 9)
    && m[0][3] == 1 && m[1][3] == 0 && m[3][1] == 1 && m[3][0] == 0
  }

  /**
   Such a matrix calls receiving to the speaker and transmitting from the microphone compatible
   if asked one way and not the other. Requested in one order, the arbiter opens both; requested
   in the other, a displaced route can be cut off by the release of its twin.
   */
  lemma SwappedMatrixFails(m: seq<seq<int>>)
    requires RowsSwapped(m)
    ensures !PairwiseCompatible(TableOf(m), Run(TableOf(m), Pair(MicToRtx(1), RtxToSpk(1))))
    ensures Genuine(Pair(MicToRtx(1), RtxToSpk(1)))
    ensures !AlwaysCompatible(TableOf(m)) && !AlwaysConnected(TableOf(m))
  {
    var table, p, q := TableOf(m), MicToRtx(1), RtxToSpk(1);
    assert Conflict(table, p, q) && !Conflict(table, q, p);
    PairCatches(table, p, q);
    PairIsGenuine(p, q);
    CompatibleExactlyIf(table);
    ConnectedExactlyIf(table);
    hide Run;
  }

  lemma MatricesFail()
    ensures RowsSwapped(MATRIX) && RowsSwapped(MDX_MATRIX)
    ensures !AlwaysCompatible(LINUX) && !AlwaysConnected(LINUX) && !AlwaysCompatible(MDX) && !AlwaysConnected(MDX)
  {
    assert RowsSwapped(MATRIX) && RowsSwapped(MDX_MATRIX);
    hide RowsSwapped, AlwaysCompatible, AlwaysConnected;
    SwappedMatrixFails(MATRIX);
    SwappedMatrixFails(MDX_MATRIX);
  }

  // ---------------------------------------------------------------- what the tables say

  predicate InTable(source: int, sink: int) {
    0 <= source < 3 && 0 <= sink < 3
  }

  /** Sources are the microphone, the receiver and the memory, sinks the speaker, the transmitter and the memory. */
  function SinkRead(source: int, sink: int): int {
    if source == 0 && sink == 0 then 1 else if source == 0 && sink == 1 then 0 else sink
  }

  /**
   The Linux matrix lets connections go together that differ in both ends, where the first one's
   speaker and transmitter are exchanged if its source is the microphone.
   */
  lemma LinuxMatrixIs(s1: int, k1: int, s2: int, k2: int)
    requires InTable(s1, k1) && InTable(s2, k2)
    ensures LINUX(s1, k1, s2, k2) <==> s1 != s2 && SinkRead(s1, k1) != k2
  {
  }

  /** The one of the MDx besides keeps transmissions from microphone and memory apart, with the same exchange. */
  lemma MdxMatrixIs(s1: int, k1: int, s2: int, k2: int)
    requires InTable(s1, k1) && InTable(s2, k2)
    ensures MDX(s1, k1, s2, k2)
            <==> LINUX(s1, k1, s2, k2) && (s1, k1, s2, k2) != (0, 1, 2, 1) && (s1, k1, s2, k2) != (2, 1, 0, 0)
  {
  }

  /** On the T-TWR Plus only receiving to the speaker and transmitting from the microphone go together. */
  lemma TtwrPlusIs(s1: int, k1: int, s2: int, k2: int)
    requires InTable(s1, k1) && InTable(s2, k2)
    ensures TTWRPLUS(s1, k1, s2, k2)
            <==> ((s1, k1), (s2, k2)) == ((1, 0), (0, 1)) || ((s1, k1), (s2, k2)) == ((0, 1), (1, 0))
  {
  }
}
