/**
 * The public map API of sim_world_api.c: null-checked wrappers around the
 * world operations, for maps the caller allocates. A map_t* argument that may be
 * NULL is a nullable `Map?`, a file name that may be NULL an
 * `Option<string>`.
 */
module SimWorldApi {
  import opened Types
  import opened Pgm
  import opened SimWorld

  /** map_create: a zero-initialised map of its own. */
  method MapCreate() returns (m: Map)
    ensures fresh(m) && fresh(m.cells) && m.Valid()
    ensures m.nrow == 0 && m.ncol == 0 && m.dirt == [] && m.ndirt == 0 && m.name == []
    ensures m.baseX == 0 && m.baseY == 0
    ensures forall i, j :: 0 <= i < WORLDSIZE && 0 <= j < WORLDSIZE ==> m.cells[i, j] == 0 as char
  {
    m := new Map();
  }

  /** map_generate: -1 for a NULL map, otherwise what sim_world_generate gives. */
  method MapGenerate(m: Map?, nrow: int, ncol: int, numDirty: int, nobs: real, rnd: seq<nat>) returns (r: int, ok: bool)
    requires m != null ==> m.Valid()
    requires m != null && nrow <= WORLDSIZE && ncol <= WORLDSIZE ==> GenerateFits(nrow, ncol, numDirty, nobs, rnd)
    modifies m, if m == null then {} else {m.cells}
    ensures m == null ==> r == -1
    ensures m != null ==> m.Valid()
    ensures m != null && (nrow > WORLDSIZE || ncol > WORLDSIZE) ==> r == -1 && unchanged(m) && unchanged(m.cells)
    ensures m != null && nrow <= WORLDSIZE && ncol <= WORLDSIZE ==>
      r == 0 && m.nrow == nrow && m.ncol == ncol && m.Bordered() && m.MapChars()
    ensures m != null && nrow <= WORLDSIZE && ncol <= WORLDSIZE && ok ==>
      m.ndirt == numDirty && |m.dirt| == Count(numDirty) && m.DirtPlaced()
    ensures m != null && nrow <= WORLDSIZE && ncol <= WORLDSIZE && ok ==>
      (nobs >= 1.0 ==> 4 * Trunc(nobs) <= |rnd|) && (0.0 < nobs < 1.0 ==> |rnd| >= RANDOM_SIDE * RANDOM_SIDE) &&
      forall i, j :: 0 <= i < WORLDSIZE && 0 <= j < WORLDSIZE ==>
        (m.cells[i, j] == WALL <==> OnBorder(nrow, ncol, i, j) || Obstacle(nrow, ncol, nobs, rnd, i, j))
  {
    if m == null {
      return -1, true;
    }
    r, ok := m.Generate(nrow, ncol, numDirty, nobs, rnd);
  }

  /**
   * map_save: -1 for a NULL map or file name and when the file cannot be
   * created; otherwise 0, and the file holds the plain-PGM encoding of the
   * map, which decodes back to the saved image.
   */
  method MapSave(m: Map?, filename: Option<string>, canOpen: bool) returns (r: int, file: Option<string>)
    requires m != null ==> m.Valid()
    ensures r == 0 || r == -1
    ensures r == 0 <==> m != null && filename.Some? && canOpen
    ensures r == -1 ==> file == None
    ensures r == 0 ==> file == Some(Encode(m.SavedImage())) && Decode(file.value) == Decoded(m.SavedImage())
  {
    if m == null || filename.None? {
      return -1, None;
    }
    file := m.Save(canOpen);
    if file.None? {
      return -1, None;
    }
    m.SamplesShape();
    DecodeEncode(m.SavedImage());
    r := 0;
  }

  /** map_load: -1 for a NULL map or file name, otherwise what sim_world_load gives. */
  method MapLoad(m: Map?, filename: Option<string>, file: Option<string>) returns (r: int)
    requires m != null ==> m.Valid()
    modifies m, if m == null then {} else {m.cells}
    ensures m != null ==> m.Valid()
    ensures r == 0 || r == -1
    ensures m == null || filename.None? ==> r == -1
    ensures m != null && filename.None? ==> unchanged(m) && unchanged(m.cells)
    ensures r == 0 <==> m != null && filename.Some? && file.Some? && Decode(file.value).Decoded?
    ensures r == 0 ==>
      m.name == StoredName(filename.value) &&
      m.nrow == Decode(file.value).img.height && m.ncol == Decode(file.value).img.width &&
      m.dirt == LoadedDirt(Decode(file.value).img.rows, |Decode(file.value).img.rows|, 0, false)
    ensures m != null && filename.Some? && file.None? ==> unchanged(m) && unchanged(m.cells)
    ensures m != null && filename.Some? && file.Some? && !Decode(file.value).Decoded? ==>
      m.ndirt == 0 && m.dirt == [] && unchanged(m.cells) &&
      m.nrow == old(m.nrow) && m.ncol == old(m.ncol) && m.name == old(m.name) &&
      m.baseX == old(m.baseX) && m.baseY == old(m.baseY)
    ensures r == 0 ==>
      Shaped(Decode(file.value).img.rows, m.nrow, m.ncol) && m.ndirt == |m.dirt| &&
      (m.baseX, m.baseY) == LoadedBase(Decode(file.value).img.rows, |Decode(file.value).img.rows|, 0, (old(m.baseX), old(m.baseY)))
    ensures r == 0 ==>
      forall y, x :: 0 <= y < WORLDSIZE && 0 <= x < WORLDSIZE ==>
        m.cells[y, x] == if y < m.nrow && x < m.ncol then CharOfSample(Decode(file.value).img.rows[y][x]) else old(m.cells[y, x])
  {
    if m == null || filename.None? {
      return -1;
    }
    r := m.Load(filename.value, file);
  }
}
