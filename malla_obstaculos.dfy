/** The obstacle mesh of `malla_obstaculos.cpp`: a `GRID_HEIGHT` x `GRID_WIDTH` grid of cell
    types, the node id of every transitable cell, and the deterministic steps that shape and
    number it.  A grid is indexed `grid[y][x]`; coordinates are passed as `(x, y)`.  The
    random generators (scattered obstacles, rivers and lakes, building draws) are not part of
    this model: their results come in as parameters. */
module MallaObstaculos {

  const GRID_WIDTH: int := 1414
  const GRID_HEIGHT: int := 1414
  /** Below this many transitable cells `generar_malla` clears some obstacles. */
  const NODOS_MINIMOS: int := 1800000
  const NUM_EDIFICIOS: int := 500

  datatype CellType = FREE | OBSTACLE | WATER | BUILDING

  /** The enum's underlying value. */
  function Valor(c: CellType): (v: nat)
    ensures v < 4 && TIPOS[v] == c
  {
    match c
    case FREE => 0
    case OBSTACLE => 1
    case WATER => 2
    case BUILDING => 3
  }

  /** A grid of the mesh's dimensions. */
  ghost predicate Rejilla<T>(g: seq<seq<T>>)
  {
    |g| == GRID_HEIGHT && forall y :: 0 <= y < |g| ==> |g[y]| == GRID_WIDTH
  }

  /** `en_limites`. */
  predicate EnLimites(x: int, y: int)
  {
    0 <= x < GRID_WIDTH && 0 <= y < GRID_HEIGHT
  }

  // ---------------------------------------------------------------------------------------
  // Row-major numbering of the FREE cells

  /** FREE cells among the first `x` cells of a row. */
  function LibresFila(fila: seq<CellType>, x: int): (r: nat)
    requires 0 <= x <= |fila|
    ensures r <= x
  {
    if x == 0 then 0 else LibresFila(fila, x - 1) + (if fila[x - 1] == FREE then 1 else 0)
  }

  /** FREE cells in the rows above row `y`. */
  function LibresAntes(g: seq<seq<CellType>>, y: int): (r: nat)
    requires Rejilla(g) && 0 <= y <= GRID_HEIGHT
  {
    if y == 0 then 0 else LibresAntes(g, y - 1) + LibresFila(g[y - 1], GRID_WIDTH)
  }

  /** FREE cells before `(x, y)` in row-major order. */
  function Orden(g: seq<seq<CellType>>, x: int, y: int): (r: nat)
    requires Rejilla(g) && EnLimites(x, y)
  {
    LibresAntes(g, y) + LibresFila(g[y], x)
  }

  /** FREE cells of the whole grid. */
  function TotalLibres(g: seq<seq<CellType>>): (r: nat)
    requires Rejilla(g)
  {
    LibresAntes(g, GRID_HEIGHT)
  }

  lemma {:induction false} LibresFilaCrece(fila: seq<CellType>, x: int, z: int)
    requires 0 <= x <= z <= |fila|
    ensures LibresFila(fila, x) <= LibresFila(fila, z)
    decreases z - x
  {
    if x < z {
      LibresFilaCrece(fila, x, z - 1);
    }
  }

  lemma {:induction false} LibresAntesCrece(g: seq<seq<CellType>>, y: int, z: int)
    requires Rejilla(g) && 0 <= y <= z <= GRID_HEIGHT
    ensures LibresAntes(g, y) <= LibresAntes(g, z)
    decreases z - y
  {
    if y < z {
      LibresAntesCrece(g, y, z - 1);
    }
  }

  /** Row-major numbering is strictly increasing over FREE cells: the ids of distinct FREE
      cells differ. */
  lemma OrdenCreciente(g: seq<seq<CellType>>, x1: int, y1: int, x2: int, y2: int)
    requires Rejilla(g) && EnLimites(x1, y1) && EnLimites(x2, y2) && g[y1][x1] == FREE
    requires y1 < y2 || (y1 == y2 && x1 < x2)
    ensures Orden(g, x1, y1) < Orden(g, x2, y2)
  {
    if y1 < y2 {
      LibresFilaCrece(g[y1], x1 + 1, GRID_WIDTH);
      LibresAntesCrece(g, y1 + 1, y2);
    } else {
      LibresFilaCrece(g[y1], x1 + 1, x2);
    }
  }

  /** The number of a FREE cell is below the total. */
  lemma OrdenAcotado(g: seq<seq<CellType>>, x: int, y: int)
    requires Rejilla(g) && EnLimites(x, y) && g[y][x] == FREE
    ensures Orden(g, x, y) < TotalLibres(g)
  {
    LibresFilaCrece(g[y], x + 1, GRID_WIDTH);
    LibresAntesCrece(g, y + 1, GRID_HEIGHT);
  }

  /** There are no more FREE cells above row `y` than cells. */
  lemma {:induction false} LibresAntesAcotado(g: seq<seq<CellType>>, y: int)
    requires Rejilla(g) && 0 <= y <= GRID_HEIGHT
    ensures LibresAntes(g, y) <= y * GRID_WIDTH
  {
    if y > 0 {
      LibresAntesAcotado(g, y - 1);
    }
  }

  /** Every number below `LibresFila(fila, x)` is the rank of a FREE cell of the row. */
  lemma {:induction false} LibresFilaAlcanza(fila: seq<CellType>, x: int, j: int)
    requires 0 <= x <= |fila| && 0 <= j < LibresFila(fila, x)
    ensures exists c :: 0 <= c < x && fila[c] == FREE && LibresFila(fila, c) == j
  {
    if j < LibresFila(fila, x - 1) {
      LibresFilaAlcanza(fila, x - 1, j);
    } else {
      assert fila[x - 1] == FREE && LibresFila(fila, x - 1) == j;
    }
  }

  /** Every number below the total is the id of some FREE cell: the numbering is onto
      `[0, TotalLibres(g))`. */
  lemma {:induction false} OrdenAlcanza(g: seq<seq<CellType>>, y: int, j: int)
    requires Rejilla(g) && 0 <= y <= GRID_HEIGHT && 0 <= j < LibresAntes(g, y)
    ensures exists x, y' :: EnLimites(x, y') && y' < y && g[y'][x] == FREE && Orden(g, x, y') == j
  {
    if j < LibresAntes(g, y - 1) {
      OrdenAlcanza(g, y - 1, j);
    } else {
      LibresFilaAlcanza(g[y - 1], GRID_WIDTH, j - LibresAntes(g, y - 1));
      var x :| 0 <= x < GRID_WIDTH && g[y - 1][x] == FREE && LibresFila(g[y - 1], x) == j - LibresAntes(g, y - 1);
      assert Orden(g, x, y - 1) == j;
    }
  }

  /** A FREE cell keeps its id; any other keeps what it held. */
  ghost function Asignado(g: seq<seq<CellType>>, ids: seq<seq<int>>, x: int, y: int): int
    requires Rejilla(g) && Rejilla(ids) && EnLimites(x, y)
  {
    if g[y][x] == FREE then Orden(g, x, y) else ids[y][x]
  }

  /** `ids` numbers the FREE cells of `g` in row-major order and keeps `antes` elsewhere. */
  ghost predicate Numerado(g: seq<seq<CellType>>, antes: seq<seq<int>>, ids: seq<seq<int>>)
  {
    Rejilla(g) && Rejilla(antes) && Rejilla(ids) &&
    forall x, y :: EnLimites(x, y) ==> ids[y][x] == Asignado(g, antes, x, y)
  }

  /** The ids of a fresh mesh: -1 everywhere. */
  ghost function SinIds(): (r: seq<seq<int>>)
    ensures Rejilla(r) && forall x, y :: EnLimites(x, y) ==> r[y][x] == -1
  {
    seq(GRID_HEIGHT, _ => seq(GRID_WIDTH, _ => -1))
  }

  /** The grid of a fresh mesh: FREE everywhere. */
  ghost function TodoLibre(): (r: seq<seq<CellType>>)
    ensures Rejilla(r) && forall x, y :: EnLimites(x, y) ==> r[y][x] == FREE
  {
    seq(GRID_HEIGHT, _ => seq(GRID_WIDTH, _ => FREE))
  }

  /** Some cell holds the id `j`. */
  ghost predicate Usado(ids: seq<seq<int>>, j: int)
    requires Rejilla(ids)
  {
    exists x, y :: EnLimites(x, y) && ids[y][x] == j
  }

  /** After numbering a grid whose ids were all -1, the cells with an id are exactly the
      FREE ones, and their ids are `0 .. TotalLibres(g) - 1`, each used once. */
  lemma NumeradoBiyectivo(g: seq<seq<CellType>>, antes: seq<seq<int>>, ids: seq<seq<int>>)
    requires Numerado(g, antes, ids)
    requires forall x, y :: EnLimites(x, y) ==> antes[y][x] == -1
    ensures forall x, y :: EnLimites(x, y) ==> (ids[y][x] != -1 <==> g[y][x] == FREE)
    ensures forall x, y :: EnLimites(x, y) && ids[y][x] != -1 ==> 0 <= ids[y][x] < TotalLibres(g)
    ensures forall x1, y1, x2, y2 ::
              (EnLimites(x1, y1) && EnLimites(x2, y2) && ids[y1][x1] != -1 && ids[y1][x1] == ids[y2][x2])
              ==> x1 == x2 && y1 == y2
    ensures forall j :: 0 <= j < TotalLibres(g) ==> Usado(ids, j)
  {
    forall x, y | EnLimites(x, y) && g[y][x] == FREE
      ensures 0 <= ids[y][x] < TotalLibres(g)
    {
      OrdenAcotado(g, x, y);
    }
    forall x1, y1, x2, y2 | EnLimites(x1, y1) && EnLimites(x2, y2) && ids[y1][x1] != -1 &&
                            ids[y1][x1] == ids[y2][x2]
      ensures x1 == x2 && y1 == y2
    {
      if y1 < y2 || (y1 == y2 && x1 < x2) {
        OrdenCreciente(g, x1, y1, x2, y2);
      } else if y2 < y1 || (y1 == y2 && x2 < x1) {
        OrdenCreciente(g, x2, y2, x1, y1);
      }
    }
    forall j | 0 <= j < TotalLibres(g)
      ensures Usado(ids, j)
    {
      OrdenAlcanza(g, GRID_HEIGHT, j);
      var x, y :| EnLimites(x, y) && g[y][x] == FREE && Orden(g, x, y) == j;
      assert ids[y][x] == j;
    }
  }


  /** Two grids that agree on every cell are equal. */
  lemma IgualesPorCeldas<T>(a: seq<seq<T>>, b: seq<seq<T>>)
    requires Rejilla(a) && Rejilla(b)
    requires forall x, y :: EnLimites(x, y) ==> a[y][x] == b[y][x]
    ensures a == b
  {
    forall y | 0 <= y < GRID_HEIGHT
      ensures a[y] == b[y]
    {
      assert forall x :: 0 <= x < GRID_WIDTH ==> a[y][x] == b[y][x] by {
        forall x | 0 <= x < GRID_WIDTH
          ensures a[y][x] == b[y][x]
        {
          assert EnLimites(x, y);
        }
      }
    }
  }

  /** The grid with each cell computed by `f`. */
  ghost function Celdas(f: (int, int) -> CellType): (r: seq<seq<CellType>>)
    ensures Rejilla(r)
    ensures forall x, y :: EnLimites(x, y) ==> r[y][x] == f(x, y)
  {
    seq(GRID_HEIGHT, y => seq(GRID_WIDTH, x => f(x, y)))
  }

  // ---------------------------------------------------------------------------------------
  // The steps of `generar_malla`, each as a function of the grid before it

  /** A layer of draws laid over the grid: every cell where the layer is not FREE takes the
      layer's type.  The random obstacles are such a layer (FREE where no obstacle was drawn),
      and so are the rivers and lakes (WATER where they pass). */
  ghost function Superpuesta(g: seq<seq<CellType>>, capa: seq<seq<CellType>>): (r: seq<seq<CellType>>)
    requires Rejilla(g) && Rejilla(capa)
    ensures Rejilla(r)
  {
    Celdas((x, y) => if EnLimites(x, y) then (if capa[y][x] != FREE then capa[y][x] else g[y][x])
                     else FREE)
  }

  /** A layer of rivers and lakes: only WATER or nothing. */
  ghost predicate SoloAgua(capa: seq<seq<CellType>>)
    requires Rejilla(capa)
  {
    forall x, y :: EnLimites(x, y) ==> (capa[y][x] == FREE || capa[y][x] == WATER)
  }

  /** The draws of one building: a corner inside the grid and both sides between 5 and 25. */
  datatype Edificio = Edificio(x: int, y: int, ancho: int, alto: int)

  predicate Sorteable(e: Edificio)
  {
    EnLimites(e.x, e.y) && 5 <= e.ancho <= 25 && 5 <= e.alto <= 25
  }

  predicate Cubre(e: Edificio, x: int, y: int)
  {
    e.x <= x < e.x + e.ancho && e.y <= y < e.y + e.alto
  }

  /** Some of the first `n` buildings covers `(x, y)`. */
  predicate Cubierta(es: seq<Edificio>, n: int, x: int, y: int)
    requires 0 <= n <= |es|
  {
    n > 0 && (Cubierta(es, n - 1, x, y) || Cubre(es[n - 1], x, y))
  }

  /** Buildings: every cell under a building, clipped to the grid, is BUILDING. */
  ghost function ConEdificios(g: seq<seq<CellType>>, es: seq<Edificio>): (r: seq<seq<CellType>>)
    requires Rejilla(g)
    ensures Rejilla(r)
  {
    Celdas((x, y) => if EnLimites(x, y) then (if Cubierta(es, |es|, x, y) then BUILDING else g[y][x])
                     else FREE)
  }

  function Min(a: int, b: int): (r: int)
    ensures r <= a && r <= b && (r == a || r == b)
  {
    if a <= b then a else b
  }

  /** The centre of road `i` (of 10) across a side of length `largo`. */
  function Eje(i: int, largo: int): int
  {
    (i + 1) * largo / 11
  }

  /** Coordinate `c` lies on one of the first `n` roads of width 3 across a side of length
      `largo`. */
  predicate Franja(c: int, largo: int, n: int)
  {
    n > 0 && (Franja(c, largo, n - 1) || Eje(n - 1, largo) - 1 <= c <= Eje(n - 1, largo) + 1)
  }

  predicate EnCarretera(x: int, y: int)
  {
    Franja(y, GRID_HEIGHT, 10) || Franja(x, GRID_WIDTH, 10)
  }

  /** Roads: the ten horizontal and ten vertical bands are FREE. */
  ghost function ConCarreteras(g: seq<seq<CellType>>): (r: seq<seq<CellType>>)
    requires Rejilla(g)
    ensures Rejilla(r)
  {
    Celdas((x, y) => if EnLimites(x, y) then (if EnCarretera(x, y) then FREE else g[y][x]) else FREE)
  }

  /** Fallback: OBSTACLE cells with both coordinates multiples of 3 become FREE. */
  ghost function Reducida(g: seq<seq<CellType>>): (r: seq<seq<CellType>>)
    requires Rejilla(g)
    ensures Rejilla(r)
  {
    Celdas((x, y) => if EnLimites(x, y) then
                       (if y % 3 == 0 && x % 3 == 0 && g[y][x] == OBSTACLE then FREE else g[y][x])
                     else FREE)
  }


  /** The grid `generar_malla` leaves behind, from the grid before it and the draws. */
  ghost function Generada(g: seq<seq<CellType>>, sorteo: seq<seq<CellType>>, edificios: seq<Edificio>,
                          agua: seq<seq<CellType>>): (r: seq<seq<CellType>>)
    requires Rejilla(g) && Rejilla(sorteo) && Rejilla(agua)
    ensures Rejilla(r)
  {
    ConRespaldo(Moldeada(g, sorteo, edificios, agua))
  }

  /** The grid after steps 1 to 5: obstacles, buildings, rivers and lakes, roads, smoothing. */
  ghost function Moldeada(g: seq<seq<CellType>>, sorteo: seq<seq<CellType>>, edificios: seq<Edificio>,
                          agua: seq<seq<CellType>>): (r: seq<seq<CellType>>)
    requires Rejilla(g) && Rejilla(sorteo) && Rejilla(agua)
    ensures Rejilla(r)
  {
    Suavizada(ConCarreteras(Superpuesta(ConEdificios(Superpuesta(g, sorteo), edificios), agua)))
  }

  /** The fallback, applied when fewer than `NODOS_MINIMOS` cells are FREE. */
  ghost function ConRespaldo(m: seq<seq<CellType>>): (r: seq<seq<CellType>>)
    requires Rejilla(m)
    ensures Rejilla(r)
  {
    if TotalLibres(m) < NODOS_MINIMOS then Reducida(m) else m
  }

  /** Numbering again after cells were only freed keeps the ids of cells that were never
      FREE. */
  lemma NumeradoEncadenado(g1: seq<seq<CellType>>, g2: seq<seq<CellType>>,
                           ids0: seq<seq<int>>, ids1: seq<seq<int>>, ids2: seq<seq<int>>)
    requires Numerado(g1, ids0, ids1) && Numerado(g2, ids1, ids2)
    requires forall x, y :: EnLimites(x, y) && g1[y][x] == FREE ==> g2[y][x] == FREE
    ensures Numerado(g2, ids0, ids2)
  {
    forall x, y | EnLimites(x, y)
      ensures ids2[y][x] == Asignado(g2, ids0, x, y)
    {
      assert ids1[y][x] == Asignado(g1, ids0, x, y);
    }
  }

  /** Freeing cells never lowers the count within a row. */
  lemma {:induction false} LibresFilaMonotona(a: seq<CellType>, b: seq<CellType>, x: int)
    requires |a| == |b| && 0 <= x <= |a|
    requires forall i :: 0 <= i < |a| && a[i] == FREE ==> b[i] == FREE
    ensures LibresFila(a, x) <= LibresFila(b, x)
  {
    if x > 0 {
      LibresFilaMonotona(a, b, x - 1);
    }
  }

  /** Freeing cells never lowers the count of FREE cells above a row. */
  lemma {:induction false} LibresAntesMonotona(a: seq<seq<CellType>>, b: seq<seq<CellType>>, y: int)
    requires Rejilla(a) && Rejilla(b) && 0 <= y <= GRID_HEIGHT
    requires forall x, y :: EnLimites(x, y) && a[y][x] == FREE ==> b[y][x] == FREE
    ensures LibresAntes(a, y) <= LibresAntes(b, y)
  {
    if y > 0 {
      LibresAntesMonotona(a, b, y - 1);
      var fa, fb := a[y - 1], b[y - 1];
      forall i | 0 <= i < |fa| && fa[i] == FREE
        ensures fb[i] == FREE
      {
        assert EnLimites(i, y - 1);
      }
      LibresFilaMonotona(fa, fb, GRID_WIDTH);
    }
  }

  /** The fallback only frees cells, so it never lowers the node count. */
  lemma ReducidaNoPierde(g: seq<seq<CellType>>)
    requires Rejilla(g)
    ensures forall x, y :: EnLimites(x, y) && g[y][x] == FREE ==> Reducida(g)[y][x] == FREE
    ensures TotalLibres(g) <= TotalLibres(Reducida(g))
  {
    LibresAntesMonotona(g, Reducida(g), GRID_HEIGHT);
  }

  // ---------------------------------------------------------------------------------------
  // The 3 x 3 majority filter of `aplicar_suavizado_obstaculos`

  /** How many entries of `s` are `c`. */
  function Veces(s: seq<CellType>, c: CellType): (r: nat)
    ensures r <= |s|
  {
    if s == [] then 0 else Veces(s[..|s| - 1], c) + (if s[|s| - 1] == c then 1 else 0)
  }

  /** Every entry is of one of the four types. */
  lemma {:induction false} VecesSuman(s: seq<CellType>)
    ensures Veces(s, FREE) + Veces(s, OBSTACLE) + Veces(s, WATER) + Veces(s, BUILDING) == |s|
  {
    if s != [] {
      VecesSuman(s[..|s| - 1]);
    }
  }

  /** The window of an interior cell, row by row as the filter scans it. */
  function Ventana(g: seq<seq<CellType>>, x: int, y: int): (s: seq<CellType>)
    requires Rejilla(g) && 1 <= x < GRID_WIDTH - 1 && 1 <= y < GRID_HEIGHT - 1
    ensures |s| == 9
    ensures forall k :: 0 <= k < 9 ==> s[k] == g[y + k / 3 - 1][x + k % 3 - 1]
  {
    [g[y - 1][x - 1], g[y - 1][x], g[y - 1][x + 1],
     g[y][x - 1], g[y][x], g[y][x + 1],
     g[y + 1][x - 1], g[y + 1][x], g[y + 1][x + 1]]
  }

  /** The key order of `map<CellType, int>`. */
  const TIPOS: seq<CellType> := [FREE, OBSTACLE, WATER, BUILDING]

  /** The scan over the counts of the first `n` types in key order: a type replaces the
      current choice only with a strictly larger count, starting from `(FREE, 0)`. */
  function Eleccion(s: seq<CellType>, n: int): (r: (CellType, nat))
    requires 0 <= n <= 4
  {
    if n == 0 then (FREE, 0)
    else
      var anterior := Eleccion(s, n - 1);
      var c := Veces(s, TIPOS[n - 1]);
      if c > anterior.1 then (TIPOS[n - 1], c) else anterior
  }

  /** The scan picks a most frequent type, the one of lowest value among those tied. */
  lemma {:induction false} EleccionMaxima(s: seq<CellType>, n: int)
    requires 0 <= n <= 4
    ensures Eleccion(s, n).1 == 0 || Eleccion(s, n).1 == Veces(s, Eleccion(s, n).0)
    ensures forall k :: 0 <= k < n ==> Veces(s, TIPOS[k]) <= Eleccion(s, n).1
    ensures forall k :: 0 <= k < n && Valor(TIPOS[k]) < Valor(Eleccion(s, n).0) ==>
              Veces(s, TIPOS[k]) < Eleccion(s, n).1
    ensures Eleccion(s, n).1 > 0 ==> Valor(Eleccion(s, n).0) < n
  {
    if n > 0 {
      EleccionMaxima(s, n - 1);
      var e := Eleccion(s, n - 1);
      assert Valor(TIPOS[0]) == 0 && Valor(TIPOS[1]) == 1 && Valor(TIPOS[2]) == 2 && Valor(TIPOS[3]) == 3;
    }
  }

  /** A type holding at least 6 of the 9 window cells is the one the scan picks. */
  lemma MayoriaAbsoluta(s: seq<CellType>, c: CellType)
    requires |s| == 9 && Veces(s, c) >= 6
    ensures Eleccion(s, 4) == (c, Veces(s, c))
  {
    VecesSuman(s);
    EleccionMaxima(s, 4);
    var e := Eleccion(s, 4);
    assert Veces(s, TIPOS[Valor(c)]) <= e.1;
  }

  /** The new type of `(x, y)`: border cells keep theirs; an interior cell takes the
      scan's choice when its count is at least 6. */
  function Suavizado(g: seq<seq<CellType>>, x: int, y: int): CellType
    requires Rejilla(g) && EnLimites(x, y)
  {
    if 1 <= y < GRID_HEIGHT - 1 && 1 <= x < GRID_WIDTH - 1 then
      var e := Eleccion(Ventana(g, x, y), 4);
      if e.1 >= 6 then e.0 else g[y][x]
    else g[y][x]
  }

  /** The filter, cell by cell: an interior cell becomes the type holding at least 6 of its
      9 window cells when there is one, and otherwise (and on the border) keeps its type. */
  lemma SuavizadoPorMayoria(g: seq<seq<CellType>>, x: int, y: int)
    requires Rejilla(g) && EnLimites(x, y)
    ensures !(1 <= y < GRID_HEIGHT - 1 && 1 <= x < GRID_WIDTH - 1) ==> Suavizado(g, x, y) == g[y][x]
    ensures 1 <= y < GRID_HEIGHT - 1 && 1 <= x < GRID_WIDTH - 1 ==>
              (forall c :: Veces(Ventana(g, x, y), c) >= 6 ==> Suavizado(g, x, y) == c) &&
              ((forall c :: Veces(Ventana(g, x, y), c) < 6) ==> Suavizado(g, x, y) == g[y][x])
  {
    if 1 <= y < GRID_HEIGHT - 1 && 1 <= x < GRID_WIDTH - 1 {
      var s := Ventana(g, x, y);
      forall c | Veces(s, c) >= 6
        ensures Suavizado(g, x, y) == c
      {
        MayoriaAbsoluta(s, c);
      }
      EleccionMaxima(s, 4);
    }
  }

  ghost function Suavizada(g: seq<seq<CellType>>): (r: seq<seq<CellType>>)
    requires Rejilla(g)
    ensures Rejilla(r)
  {
    Celdas((x, y) => if EnLimites(x, y) then Suavizado(g, x, y) else FREE)
  }

  /** The count kept in the map for `c`, 0 when absent. */
  function Conteo(m: map<CellType, int>, c: CellType): int
  {
    if c in m then m[c] else 0
  }

  /** Counting one more window cell. */
  lemma ContarUno(m: map<CellType, int>, s: seq<CellType>, k: int, m': map<CellType, int>)
    requires 0 <= k < |s| && forall c :: Conteo(m, c) == Veces(s[..k], c)
    requires m' == m[s[k] := Conteo(m, s[k]) + 1]
    ensures forall c :: Conteo(m', c) == Veces(s[..k + 1], c)
  {
    assert s[..k + 1][..k] == s[..k];
  }

  /** The inner counting loop over row `y + dy` of the window of `(x, y)`. */
  method ContarFila(grid: seq<seq<CellType>>, x: int, y: int, dy: int, m: map<CellType, int>)
    returns (vecinos_count: map<CellType, int>)
    requires Rejilla(grid) && 1 <= x < GRID_WIDTH - 1 && 1 <= y < GRID_HEIGHT - 1 && -1 <= dy <= 1
    requires forall c :: Conteo(m, c) == Veces(Ventana(grid, x, y)[..3 * (dy + 1)], c)
    ensures forall c :: Conteo(vecinos_count, c) == Veces(Ventana(grid, x, y)[..3 * (dy + 2)], c)
  {
    ghost var s := Ventana(grid, x, y);
    vecinos_count := m;
    for dx := -1 to 2
      invariant forall c :: Conteo(vecinos_count, c) == Veces(s[..3 * (dy + 1) + dx + 1], c)
    {
      var tipo := grid[y + dy][x + dx];
      ghost var k := 3 * (dy + 1) + dx + 1;
      assert k / 3 == dy + 1 && k % 3 == dx + 1;
      assert s[k] == tipo;
      ghost var anterior := vecinos_count;
      vecinos_count := vecinos_count[tipo := Conteo(vecinos_count, tipo) + 1];
      ContarUno(anterior, s, k, vecinos_count);
    }
  }

  /** The two counting loops for the interior cell `(x, y)`: the map holds the count of every
      type in its window. */
  method ContarVecinos(grid: seq<seq<CellType>>, x: int, y: int) returns (vecinos_count: map<CellType, int>)
    requires Rejilla(grid) && 1 <= x < GRID_WIDTH - 1 && 1 <= y < GRID_HEIGHT - 1
    ensures forall c :: Conteo(vecinos_count, c) == Veces(Ventana(grid, x, y), c)
  {
    ghost var s := Ventana(grid, x, y);
    vecinos_count := map[];
    for dy := -1 to 2
      invariant forall c :: Conteo(vecinos_count, c) == Veces(s[..3 * (dy + 1)], c)
    {
      vecinos_count := ContarFila(grid, x, y, dy, vecinos_count);
    }
    assert s[..9] == s;
  }

  /** The scan of the map in key order for the interior cell `(x, y)`. */
  method ContarMayoritario(grid: seq<seq<CellType>>, x: int, y: int)
    returns (tipo_mayoritario: CellType, max_count: int)
    requires Rejilla(grid) && 1 <= x < GRID_WIDTH - 1 && 1 <= y < GRID_HEIGHT - 1
    ensures (tipo_mayoritario, max_count) == Eleccion(Ventana(grid, x, y), 4)
  {
    var vecinos_count := ContarVecinos(grid, x, y);
    ghost var s := Ventana(grid, x, y);
    tipo_mayoritario := FREE;
    max_count := 0;
    for k := 0 to 4
      invariant (tipo_mayoritario, max_count) == Eleccion(s, k)
    {
      var tipo := TIPOS[k];
      if tipo in vecinos_count && vecinos_count[tipo] > max_count {
        max_count := vecinos_count[tipo];
        tipo_mayoritario := tipo;
      }
    }
  }

  /** `aplicar_suavizado_obstaculos`: every interior cell is decided on the original grid
      and written to a copy, which then replaces the grid. */
  method AplicarSuavizadoObstaculos(grid: seq<seq<CellType>>) returns (nuevo: seq<seq<CellType>>)
    requires Rejilla(grid)
    ensures nuevo == Suavizada(grid)
  {
    var temp_grid := grid;
    for y := 1 to GRID_HEIGHT - 1
      invariant Rejilla(temp_grid)
      invariant forall x, y' :: EnLimites(x, y') ==>
                  temp_grid[y'][x] == (if 1 <= y' < y then Suavizado(grid, x, y') else grid[y'][x])
    {
      temp_grid := SuavizarFila(grid, temp_grid, y);
    }
    IgualesPorCeldas(temp_grid, Suavizada(grid));
    nuevo := temp_grid;
  }

  /** The inner loop of the filter over row `y`. */
  method SuavizarFila(grid: seq<seq<CellType>>, temp_grid: seq<seq<CellType>>, y: int)
    returns (temp': seq<seq<CellType>>)
    requires Rejilla(grid) && Rejilla(temp_grid) && 1 <= y < GRID_HEIGHT - 1 && temp_grid[y] == grid[y]
    ensures Rejilla(temp')
    ensures forall y' :: 0 <= y' < GRID_HEIGHT && y' != y ==> temp'[y'] == temp_grid[y']
    ensures forall x :: 0 <= x < GRID_WIDTH ==> temp'[y][x] == Suavizado(grid, x, y)
  {
    temp' := temp_grid;
    for x := 1 to GRID_WIDTH - 1
      invariant Rejilla(temp')
      invariant forall y' :: 0 <= y' < GRID_HEIGHT && y' != y ==> temp'[y'] == temp_grid[y']
      invariant forall x' :: 0 <= x' < GRID_WIDTH ==>
                  temp'[y][x'] == (if 1 <= x' < x then Suavizado(grid, x', y) else grid[y][x'])
    {
      var tipo_mayoritario, max_count := ContarMayoritario(grid, x, y);
      if max_count >= 6 {
        temp' := temp'[y := temp'[y][x := tipo_mayoritario]];
      }
    }
  }

  class MallaConObstaculos {
    var grid: seq<seq<CellType>>
    var node_ids: seq<seq<int>>
    var next_node_id: int

    ghost predicate Valid()
      reads this
    {
      Rejilla(grid) && Rejilla(node_ids)
    }

    /** The ids numbered afresh: the FREE cells carry `0 .. next_node_id - 1` in row-major
        order and every other cell -1. */
    ghost predicate Numerada()
      reads this
    {
      Valid() && Numerado(grid, SinIds(), node_ids) && next_node_id == TotalLibres(grid)
    }

    /** Every cell FREE, every id -1, no node. */
    constructor ()
      ensures Valid() && next_node_id == 0 && node_ids == SinIds() && grid == TodoLibre()
      ensures forall x, y :: EnLimites(x, y) ==> grid[y][x] == FREE && node_ids[y][x] == -1
    {
      grid := seq(GRID_HEIGHT, _ => seq(GRID_WIDTH, _ => FREE));
      node_ids := seq(GRID_HEIGHT, _ => seq(GRID_WIDTH, _ => -1));
      next_node_id := 0;
    }

    /** `es_transitable`: inside the grid and FREE; equivalently, `get_cell_type` says FREE. */
    predicate EsTransitable(x: int, y: int)
      reads this
      requires Valid()
      ensures EsTransitable(x, y) ==> EnLimites(x, y)
      ensures EsTransitable(x, y) <==> GetCellType(x, y) == FREE
    {
      if !EnLimites(x, y) then false else grid[y][x] == FREE
    }

    /** `get_node_id`: -1 outside the grid. */
    function GetNodeId(x: int, y: int): (r: int)
      reads this
      requires Valid()
      ensures !EnLimites(x, y) ==> r == -1
      ensures EnLimites(x, y) ==> r == node_ids[y][x]
    {
      if !EnLimites(x, y) then -1 else node_ids[y][x]
    }

    /** `get_cell_type`: outside the grid every cell counts as an obstacle. */
    function GetCellType(x: int, y: int): (r: CellType)
      reads this
      requires Valid()
      ensures !EnLimites(x, y) ==> r == OBSTACLE
      ensures EnLimites(x, y) ==> r == grid[y][x]
    {
      if !EnLimites(x, y) then OBSTACLE else grid[y][x]
    }

    function GetTotalNodes(): (r: int)
      reads this
    {
      next_node_id
    }

    /** `generar_malla` with the random draws given: obstacles, buildings, rivers and lakes,
        roads, smoothing and the numbering, then, when fewer than 1,800,000 cells are FREE,
        the fallback and a second numbering.  It always reports success. */
    method GenerarMalla(sorteo: seq<seq<CellType>>, edificios: seq<Edificio>, agua: seq<seq<CellType>>)
      returns (ok: bool)
      requires Valid() && Rejilla(sorteo) && Rejilla(agua) && SoloAgua(agua)
      requires |edificios| == NUM_EDIFICIOS && forall i :: 0 <= i < |edificios| ==> Sorteable(edificios[i])
      modifies this
      ensures Valid() && ok
      ensures grid == Generada(old(grid), sorteo, edificios, agua)
      ensures Numerado(grid, old(node_ids), node_ids) && next_node_id == TotalLibres(grid)
    {
      Transformar(sorteo, edificios, agua);
      AsignarIds();
      AsegurarMinimo(old(node_ids));
      return true;
    }

    /** The check after the numbering: with fewer than 1,800,000 ids, the fallback runs and
        the cells are numbered again. */
    method AsegurarMinimo(ghost ids0: seq<seq<int>>)
      requires Valid() && Numerado(grid, ids0, node_ids) && next_node_id == TotalLibres(grid)
      modifies this
      ensures Valid() && grid == ConRespaldo(old(grid))
      ensures Numerado(grid, ids0, node_ids) && next_node_id == TotalLibres(grid)
    {
      if next_node_id < NODOS_MINIMOS {
        ghost var g1, ids1 := grid, node_ids;
        ReducirObstaculos();
        AsignarIds();
        ReducidaNoPierde(g1);
        NumeradoEncadenado(g1, grid, ids0, ids1, node_ids);
      }
    }

    /** Steps 1 to 5 of `generar_malla`, which shape the grid. */
    method Transformar(sorteo: seq<seq<CellType>>, edificios: seq<Edificio>, agua: seq<seq<CellType>>)
      requires Valid() && Rejilla(sorteo) && Rejilla(agua)
      requires |edificios| == NUM_EDIFICIOS && forall i :: 0 <= i < |edificios| ==> Sorteable(edificios[i])
      modifies this
      ensures Valid() && node_ids == old(node_ids)
      ensures grid == Moldeada(old(grid), sorteo, edificios, agua)
    {
      Superponer(sorteo);
      GenerarEdificiosRectangulares(edificios);
      Superponer(agua);
      GenerarCarreterasPrincipales();
      grid := AplicarSuavizadoObstaculos(grid);
    }

    /** One cell write `grid[y][x] = c`. */
    method Pintar(x: int, y: int, c: CellType)
      requires Valid() && EnLimites(x, y)
      modifies this
      ensures Valid() && grid == old(grid)[y := old(grid)[y][x := c]]
      ensures node_ids == old(node_ids) && next_node_id == old(next_node_id)
    {
      grid := grid[y := grid[y][x := c]];
    }

    /** `generar_obstaculos_aleatorios`, and `generar_rios_y_lagos`, with their draws given
        as a layer: every cell the layer marks takes its type, row by row. */
    method Superponer(capa: seq<seq<CellType>>)
      requires Valid() && Rejilla(capa)
      modifies this
      ensures Valid() && grid == Superpuesta(old(grid), capa)
      ensures node_ids == old(node_ids) && next_node_id == old(next_node_id)
    {
      for y := 0 to GRID_HEIGHT
        invariant Valid() && node_ids == old(node_ids) && next_node_id == old(next_node_id)
        invariant forall x', y' :: EnLimites(x', y') ==>
                    grid[y'][x'] == (if y' < y && capa[y'][x'] != FREE then capa[y'][x'] else old(grid)[y'][x'])
      {
        SuperponerFila(capa, y);
      }
      IgualesPorCeldas(grid, Superpuesta(old(grid), capa));
    }

    /** The inner loop of `Superponer` over row `y`. */
    method SuperponerFila(capa: seq<seq<CellType>>, y: int)
      requires Valid() && Rejilla(capa) && 0 <= y < GRID_HEIGHT
      modifies this
      ensures Valid() && node_ids == old(node_ids) && next_node_id == old(next_node_id)
      ensures forall x', y' :: EnLimites(x', y') ==>
                grid[y'][x'] == (if y' == y && capa[y'][x'] != FREE then capa[y'][x'] else old(grid)[y'][x'])
    {
      for x := 0 to GRID_WIDTH
        invariant Valid() && node_ids == old(node_ids) && next_node_id == old(next_node_id)
        invariant forall x', y' :: EnLimites(x', y') ==>
                    grid[y'][x'] == (if y' == y && x' < x && capa[y'][x'] != FREE then capa[y'][x'] else old(grid)[y'][x'])
      {
        if capa[y][x] != FREE {
          Pintar(x, y, capa[y][x]);
        }
      }
    }

    /** `generar_edificios_rectangulares` with the 500 drawn buildings given: every cell under
        a building, clipped to the grid, becomes BUILDING, and no other cell changes. */
    method GenerarEdificiosRectangulares(edificios: seq<Edificio>)
      requires Valid() && |edificios| == NUM_EDIFICIOS
      requires forall i :: 0 <= i < |edificios| ==> Sorteable(edificios[i])
      modifies this
      ensures Valid() && grid == ConEdificios(old(grid), edificios)
      ensures node_ids == old(node_ids) && next_node_id == old(next_node_id)
    {
      for i := 0 to NUM_EDIFICIOS
        invariant Valid() && node_ids == old(node_ids) && next_node_id == old(next_node_id)
        invariant forall x', y' :: EnLimites(x', y') ==>
                    grid[y'][x'] == (if Cubierta(edificios, i, x', y') then BUILDING else old(grid)[y'][x'])
      {
        ColocarEdificio(edificios[i]);
      }
      IgualesPorCeldas(grid, ConEdificios(old(grid), edificios));
    }

    /** The two loops of one building, the upper bounds clipped with `min`. */
    method ColocarEdificio(e: Edificio)
      requires Valid() && Sorteable(e)
      modifies this
      ensures Valid() && node_ids == old(node_ids) && next_node_id == old(next_node_id)
      ensures forall x', y' :: EnLimites(x', y') ==>
                grid[y'][x'] == (if Cubre(e, x', y') then BUILDING else old(grid)[y'][x'])
    {
      for y := e.y to Min(e.y + e.alto, GRID_HEIGHT)
        invariant Valid() && node_ids == old(node_ids) && next_node_id == old(next_node_id)
        invariant forall x', y' :: EnLimites(x', y') ==>
                    grid[y'][x'] == (if Cubre(e, x', y') && y' < y then BUILDING else old(grid)[y'][x'])
      {
        ColocarTramo(e, y);
      }
    }

    /** The inner loop of one building over row `y`. */
    method ColocarTramo(e: Edificio, y: int)
      requires Valid() && Sorteable(e) && 0 <= y < GRID_HEIGHT
      modifies this
      ensures Valid() && node_ids == old(node_ids) && next_node_id == old(next_node_id)
      ensures forall x', y' :: EnLimites(x', y') ==>
                grid[y'][x'] == (if y' == y && e.x <= x' < e.x + e.ancho then BUILDING else old(grid)[y'][x'])
    {
      for x := e.x to Min(e.x + e.ancho, GRID_WIDTH)
        invariant Valid() && node_ids == old(node_ids) && next_node_id == old(next_node_id)
        invariant forall x', y' :: EnLimites(x', y') ==>
                    grid[y'][x'] == (if y' == y && e.x <= x' < x then BUILDING else old(grid)[y'][x'])
      {
        Pintar(x, y, BUILDING);
      }
    }

    /** `generar_carreteras_principales`: ten horizontal roads, then ten vertical ones, each
        three cells wide around `Eje`; every other cell keeps its type. */
    method GenerarCarreterasPrincipales()
      requires Valid()
      modifies this
      ensures Valid() && grid == ConCarreteras(old(grid))
      ensures node_ids == old(node_ids) && next_node_id == old(next_node_id)
    {
      for i := 0 to 10
        invariant Valid() && node_ids == old(node_ids) && next_node_id == old(next_node_id)
        invariant forall x', y' :: EnLimites(x', y') ==>
                    grid[y'][x'] == (if Franja(y', GRID_HEIGHT, i) then FREE else old(grid)[y'][x'])
      {
        TrazarHorizontal(Eje(i, GRID_HEIGHT));
      }
      for i := 0 to 10
        invariant Valid() && node_ids == old(node_ids) && next_node_id == old(next_node_id)
        invariant forall x', y' :: EnLimites(x', y') ==>
                    grid[y'][x'] == (if Franja(y', GRID_HEIGHT, 10) || Franja(x', GRID_WIDTH, i) then FREE
                                     else old(grid)[y'][x'])
      {
        TrazarVertical(Eje(i, GRID_WIDTH));
      }
      IgualesPorCeldas(grid, ConCarreteras(old(grid)));
    }

    /** One horizontal road: rows `y - 1 .. y + 1`, where inside the grid, become FREE. */
    method TrazarHorizontal(y: int)
      requires Valid()
      modifies this
      ensures Valid() && node_ids == old(node_ids) && next_node_id == old(next_node_id)
      ensures forall x', y' :: EnLimites(x', y') ==>
                grid[y'][x'] == (if y - 1 <= y' <= y + 1 then FREE else old(grid)[y'][x'])
    {
      for x := 0 to GRID_WIDTH
        invariant Valid() && node_ids == old(node_ids) && next_node_id == old(next_node_id)
        invariant forall x', y' :: EnLimites(x', y') ==>
                    grid[y'][x'] == (if x' < x && y - 1 <= y' <= y + 1 then FREE else old(grid)[y'][x'])
      {
        for offset := -1 to 2
          invariant Valid() && node_ids == old(node_ids) && next_node_id == old(next_node_id)
          invariant forall x', y' :: EnLimites(x', y') ==>
                      grid[y'][x'] == (if (x' < x || (x' == x && y' < y + offset)) && y - 1 <= y' <= y + 1
                                       then FREE else old(grid)[y'][x'])
        {
          if EnLimites(x, y + offset) {
            Pintar(x, y + offset, FREE);
          }
        }
      }
    }

    /** One vertical road: columns `x - 1 .. x + 1`, where inside the grid, become FREE. */
    method TrazarVertical(x: int)
      requires Valid()
      modifies this
      ensures Valid() && node_ids == old(node_ids) && next_node_id == old(next_node_id)
      ensures forall x', y' :: EnLimites(x', y') ==>
                grid[y'][x'] == (if x - 1 <= x' <= x + 1 then FREE else old(grid)[y'][x'])
    {
      for y := 0 to GRID_HEIGHT
        invariant Valid() && node_ids == old(node_ids) && next_node_id == old(next_node_id)
        invariant forall x', y' :: EnLimites(x', y') ==>
                    grid[y'][x'] == (if y' < y && x - 1 <= x' <= x + 1 then FREE else old(grid)[y'][x'])
      {
        for offset := -1 to 2
          invariant Valid() && node_ids == old(node_ids) && next_node_id == old(next_node_id)
          invariant forall x', y' :: EnLimites(x', y') ==>
                      grid[y'][x'] == (if (y' < y || (y' == y && x' < x + offset)) && x - 1 <= x' <= x + 1
                                       then FREE else old(grid)[y'][x'])
        {
          if EnLimites(x + offset, y) {
            Pintar(x + offset, y, FREE);
          }
        }
      }
    }

    /** The fallback of `generar_malla`: every OBSTACLE cell on a row and a column that are
        multiples of 3 becomes FREE. */
    method ReducirObstaculos()
      requires Valid()
      modifies this
      ensures Valid() && grid == Reducida(old(grid))
      ensures node_ids == old(node_ids) && next_node_id == old(next_node_id)
    {
      var y := 0;
      while y < GRID_HEIGHT
        invariant 0 <= y <= GRID_HEIGHT + 2 && y % 3 == 0
        invariant Valid() && node_ids == old(node_ids) && next_node_id == old(next_node_id)
        invariant forall x', y' :: EnLimites(x', y') ==>
                    grid[y'][x'] == (if y' < y && y' % 3 == 0 && x' % 3 == 0 && old(grid)[y'][x'] == OBSTACLE
                                     then FREE else old(grid)[y'][x'])
      {
        ReducirFila(y);
        y := y + 3;
      }
      IgualesPorCeldas(grid, Reducida(old(grid)));
    }

    /** The inner loop of the fallback over row `y`. */
    method ReducirFila(y: int)
      requires Valid() && 0 <= y < GRID_HEIGHT
      modifies this
      ensures Valid() && node_ids == old(node_ids) && next_node_id == old(next_node_id)
      ensures forall x', y' :: EnLimites(x', y') ==>
                grid[y'][x'] == (if y' == y && x' % 3 == 0 && old(grid)[y'][x'] == OBSTACLE
                                 then FREE else old(grid)[y'][x'])
    {
      var x := 0;
      while x < GRID_WIDTH
        invariant 0 <= x <= GRID_WIDTH + 2 && x % 3 == 0
        invariant Valid() && node_ids == old(node_ids) && next_node_id == old(next_node_id)
        invariant forall x', y' :: EnLimites(x', y') ==>
                    grid[y'][x'] == (if y' == y && x' < x && x' % 3 == 0 && old(grid)[y'][x'] == OBSTACLE
                                     then FREE else old(grid)[y'][x'])
      {
        if grid[y][x] == OBSTACLE {
          Pintar(x, y, FREE);
        }
        x := x + 3;
      }
    }

    /** The id assignment loop of `generar_malla`: row by row, every transitable cell gets the
        next id; other cells keep theirs. */
    method AsignarIds()
      requires Valid()
      modifies this
      ensures Valid() && grid == old(grid)
      ensures Numerado(grid, old(node_ids), node_ids)
      ensures next_node_id == TotalLibres(grid)
    {
      ghost var ids0 := node_ids;
      next_node_id := 0;
      for y := 0 to GRID_HEIGHT
        invariant Valid() && grid == old(grid)
        invariant next_node_id == LibresAntes(grid, y)
        invariant forall x, y' :: EnLimites(x, y') && y' < y ==> node_ids[y'][x] == Asignado(grid, ids0, x, y')
        invariant forall y' :: y <= y' < GRID_HEIGHT ==> node_ids[y'] == ids0[y']
      {
        AsignarFila(y);
      }
    }

    /** The inner loop of the id assignment, over row `y`. */
    method AsignarFila(y: int)
      requires Valid() && 0 <= y < GRID_HEIGHT && next_node_id == LibresAntes(grid, y)
      modifies this
      ensures Valid() && grid == old(grid)
      ensures next_node_id == LibresAntes(grid, y + 1)
      ensures forall y' :: 0 <= y' < GRID_HEIGHT && y' != y ==> node_ids[y'] == old(node_ids)[y']
      ensures forall x :: 0 <= x < GRID_WIDTH ==> node_ids[y][x] == Asignado(grid, old(node_ids), x, y)
    {
      ghost var ids0 := node_ids;
      for x := 0 to GRID_WIDTH
        invariant Valid() && grid == old(grid)
        invariant next_node_id == LibresAntes(grid, y) + LibresFila(grid[y], x)
        invariant forall y' :: 0 <= y' < GRID_HEIGHT && y' != y ==> node_ids[y'] == ids0[y']
        invariant forall x' :: 0 <= x' < x ==> node_ids[y][x'] == Asignado(grid, ids0, x', y)
        invariant forall x' :: x <= x' < GRID_WIDTH ==> node_ids[y][x'] == ids0[y][x']
      {
        if EsTransitable(x, y) {
          node_ids := node_ids[y := node_ids[y][x := next_node_id]];
          next_node_id := next_node_id + 1;
        }
      }
    }
  }
}
