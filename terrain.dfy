/**
 * The height store of a terrain: a fixed number of height samples, all zero
 * at construction, read and written by index.
 */
module TerrainStore {

  class Terrain {
    const resolution: int
    const vertices: array<real>

    ghost predicate Valid()
      reads this
    {
      vertices.Length == resolution
    }

    /** The heights, index by index. */
    ghost function Heights(): seq<real>
      reads this, vertices
    {
      vertices[..]
    }

    /** A new store of `resolution` heights, all 0; a negative size is refused by the allocation. */
    constructor (resolution: int)
      requires 0 <= resolution
      ensures Valid() && this.resolution == resolution
      ensures fresh(vertices)
      ensures Heights() == seq(resolution, _ => 0.0)
    {
      this.resolution := resolution;
      vertices := new real[resolution](_ => 0.0);
    }

    /** The resolution is the number of stored heights. */
    function Resolution(): (r: int)
      requires Valid()
      reads this
      ensures r == vertices.Length
    {
      resolution
    }

    /** Reads one height; an index outside [0, Resolution) faults. */
    method GetHeight(index: int) returns (height: real)
      requires Valid() && 0 <= index < Resolution()
      ensures height == Heights()[index]
    {
      height := vertices[index];
    }

    /** Writes one height; every other index and the resolution are unchanged. */
    method SetHeight(index: int, height: real)
      requires Valid() && 0 <= index < Resolution()
      modifies vertices
      ensures Valid() && Heights() == old(Heights())[index := height]
    {
      vertices[index] := height;
    }
  }

  /** A height written is the height read back, and the neighbours keep theirs. */
  method SetThenGet(terrain: Terrain, index: int, other: int, height: real)
      returns (read: real, neighbour: real)
    requires terrain.Valid() && 0 <= index < terrain.Resolution() && 0 <= other < terrain.Resolution()
    requires index != other
    modifies terrain.vertices
    ensures read == height && neighbour == old(terrain.Heights()[other])
  {
    terrain.SetHeight(index, height);
    read := terrain.GetHeight(index);
    neighbour := terrain.GetHeight(other);
  }
}
