/** The cyclic chunk palette. */
module Colors {

  /** Blue, emerald, orange, red, violet, pink, cyan, lime. */
  const ChunkColors: seq<string> :=
    ["#3b82f6", "#10b981", "#f97316", "#ef4444", "#8b5cf6", "#ec4899", "#06b6d4", "#84cc16"]

  /** The colour of chunk `index`. Chunk ids come from a counter that starts
      at 0, so the index is never negative. */
  function ChunkColor(index: nat): (c: string)
    ensures c in ChunkColors
    ensures c == ChunkColors[index % 8]
  {
    ChunkColors[index % |ChunkColors|]
  }

  /** The lookup has period eight. */
  lemma ChunkColorPeriodic(index: nat)
    ensures ChunkColor(index + 8) == ChunkColor(index)
  {
    assert (index + 8) % 8 == index % 8;
  }

  /** The first eight chunk ids get pairwise different colours. */
  lemma ChunkColorsDistinct(i: nat, j: nat)
    requires i < 8 && j < 8 && i != j
    ensures ChunkColor(i) != ChunkColor(j)
  {
    assert ChunkColors[i][1] != ChunkColors[j][1] || ChunkColors[i][2] != ChunkColors[j][2];
  }

  /** The main chunk, id 0, is blue. */
  lemma MainChunkIsBlue()
    ensures ChunkColor(0) == "#3b82f6"
  {
  }
}
