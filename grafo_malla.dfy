/** The graph built from the obstacle mesh by `generar_grafo_con_malla_obstaculos`
    (grafo_grande.cpp): every transitable cell becomes a node, numbered as the mesh numbers
    it, with an edge to each transitable side neighbour and to the transitable corner
    neighbours that pass a parity test, stored in the CSR arrays of `GrafoGrande`. */
module GrafoMalla {
  import opened Csr
  import opened GrafoGrande
  import opened MallaObstaculos

  /** The side moves `(dx, dy)`, in the order their edges are added. */
  const DIRECCIONES: seq<(int, int)> := [(0, 1), (0, -1), (1, 0), (-1, 0)]

  /** The corner moves `(dx, dy)`, in the order their edges are added. */
  const DIAGONALES: seq<(int, int)> := [(1, 1), (1, -1), (-1, 1), (-1, -1)]

  // ---------------------------------------------------------------------------------------
  // The neighbour list of one node

  /** The ids of the side neighbours of `(x, y)` reached by the first `k` side moves, skipping
      cells whose id is -1. */
  ghost function Rectos(malla: MallaConObstaculos, x: int, y: int, k: int): seq<int>
    reads malla
    requires malla.Valid() && 0 <= k <= 4
  {
    if k == 0 then []
    else
      var id := malla.GetNodeId(x + DIRECCIONES[k - 1].0, y + DIRECCIONES[k - 1].1);
      Rectos(malla, x, y, k - 1) + (if id != -1 then [id] else [])
  }

  /** The ids of the corner neighbours of node `nodo` at `(x, y)` reached by the first `k`
      corner moves: only cells with an id and with `nodo + nx + ny` even. */
  ghost function Cruzados(malla: MallaConObstaculos, nodo: int, x: int, y: int, k: int): seq<int>
    reads malla
    requires malla.Valid() && 0 <= k <= 4
  {
    if k == 0 then []
    else
      var nx, ny := x + DIAGONALES[k - 1].0, y + DIAGONALES[k - 1].1;
      var id := malla.GetNodeId(nx, ny);
      Cruzados(malla, nodo, x, y, k - 1) + (if id != -1 && (nodo + nx + ny) % 2 == 0 then [id] else [])
  }

  /** Node `nodo`'s list in `temp_adjacencias`: side neighbours first, then corners. */
  ghost function VecinosMalla(malla: MallaConObstaculos, nodo: int, x: int, y: int): seq<int>
    reads malla
    requires malla.Valid()
  {
    Rectos(malla, x, y, 4) + Cruzados(malla, nodo, x, y, 4)
  }

  /** `v` is the id of the cell side move `j` reaches from `(x, y)`. */
  ghost predicate Lado(malla: MallaConObstaculos, x: int, y: int, j: int, v: int)
    reads malla
    requires malla.Valid() && 0 <= j < 4
  {
    malla.GetNodeId(x + DIRECCIONES[j].0, y + DIRECCIONES[j].1) == v
  }

  /** `v` is the id of the cell `(nx, ny)` corner move `j` reaches from `(x, y)`, and
      `nodo + nx + ny` is even. */
  ghost predicate Cruce(malla: MallaConObstaculos, nodo: int, x: int, y: int, j: int, v: int)
    reads malla
    requires malla.Valid() && 0 <= j < 4
  {
    var nx, ny := x + DIAGONALES[j].0, y + DIAGONALES[j].1;
    malla.GetNodeId(nx, ny) == v && (nodo + nx + ny) % 2 == 0
  }

  lemma {:induction false} RectosMiembros(malla: MallaConObstaculos, x: int, y: int, k: int, v: int)
    requires malla.Valid() && 0 <= k <= 4
    ensures v in Rectos(malla, x, y, k) <==> v != -1 && exists j :: 0 <= j < k && Lado(malla, x, y, j, v)
  {
    if k > 0 {
      RectosMiembros(malla, x, y, k - 1, v);
      assert Lado(malla, x, y, k - 1, v) <==> malla.GetNodeId(x + DIRECCIONES[k - 1].0, y + DIRECCIONES[k - 1].1) == v;
    }
  }

  lemma {:induction false} CruzadosMiembros(malla: MallaConObstaculos, nodo: int, x: int, y: int, k: int, v: int)
    requires malla.Valid() && 0 <= k <= 4
    ensures v in Cruzados(malla, nodo, x, y, k) <==> v != -1 && exists j :: 0 <= j < k && Cruce(malla, nodo, x, y, j, v)
  {
    if k > 0 {
      CruzadosMiembros(malla, nodo, x, y, k - 1, v);
      var nx, ny := x + DIAGONALES[k - 1].0, y + DIAGONALES[k - 1].1;
      assert Cruce(malla, nodo, x, y, k - 1, v) <==> malla.GetNodeId(nx, ny) == v && (nodo + nx + ny) % 2 == 0;
    }
  }

  /** The edge rule: `v` is in node `nodo`'s list exactly when it is the id of a side
      neighbour of `(x, y)`, or of a corner neighbour `(nx, ny)` with `nodo + nx + ny` even. */
  lemma VecinosMallaMiembros(malla: MallaConObstaculos, nodo: int, x: int, y: int, v: int)
    requires malla.Valid()
    ensures v in VecinosMalla(malla, nodo, x, y) <==>
              v != -1 && ((exists j :: 0 <= j < 4 && Lado(malla, x, y, j, v)) ||
                          (exists j :: 0 <= j < 4 && Cruce(malla, nodo, x, y, j, v)))
  {
    RectosMiembros(malla, x, y, 4, v);
    CruzadosMiembros(malla, nodo, x, y, 4, v);
  }

  /** The id side move `j` reaches, when it is not -1, is in the list of the first `k`
      side moves, `j < k`. */
  lemma {:induction false} RectoEn(malla: MallaConObstaculos, x: int, y: int, k: int, j: int)
    requires malla.Valid() && 0 <= j < k <= 4
    requires malla.GetNodeId(x + DIRECCIONES[j].0, y + DIRECCIONES[j].1) != -1
    ensures malla.GetNodeId(x + DIRECCIONES[j].0, y + DIRECCIONES[j].1) in Rectos(malla, x, y, k)
  {
    if j < k - 1 {
      RectoEn(malla, x, y, k - 1, j);
    }
  }

  /** In a freshly numbered mesh an id other than -1 belongs to a FREE cell and is a node. */
  lemma IdDeNodo(malla: MallaConObstaculos, x: int, y: int)
    requires malla.Numerada()
    ensures malla.GetNodeId(x, y) != -1 ==>
              EnLimites(x, y) && malla.grid[y][x] == FREE && 0 <= malla.GetNodeId(x, y) < malla.next_node_id
    ensures EnLimites(x, y) && malla.grid[y][x] == FREE ==> malla.GetNodeId(x, y) != -1
  {
    if EnLimites(x, y) && malla.grid[y][x] == FREE {
      OrdenAcotado(malla.grid, x, y);
    }
  }

  /** Every entry of a list is a node of the graph. */
  lemma VecinosSonNodos(malla: MallaConObstaculos, nodo: int, x: int, y: int)
    requires malla.Numerada()
    ensures forall v :: v in VecinosMalla(malla, nodo, x, y) ==> 0 <= v < malla.next_node_id
  {
    forall v | v in VecinosMalla(malla, nodo, x, y)
      ensures 0 <= v < malla.next_node_id
    {
      VecinosMallaMiembros(malla, nodo, x, y, v);
      if j :| 0 <= j < 4 && Lado(malla, x, y, j, v) {
        IdDeNodo(malla, x + DIRECCIONES[j].0, y + DIRECCIONES[j].1);
      } else {
        var j :| 0 <= j < 4 && Cruce(malla, nodo, x, y, j, v);
        IdDeNodo(malla, x + DIAGONALES[j].0, y + DIAGONALES[j].1);
      }
    }
  }

  /** Side edges go both ways: two FREE cells side by side each list the other. */
  lemma LadosSimetricos(malla: MallaConObstaculos, x: int, y: int, j: int)
    requires malla.Numerada() && EnLimites(x, y) && 0 <= j < 4
    requires EnLimites(x + DIRECCIONES[j].0, y + DIRECCIONES[j].1)
    requires malla.grid[y][x] == FREE && malla.grid[y + DIRECCIONES[j].1][x + DIRECCIONES[j].0] == FREE
    ensures var u, v := malla.node_ids[y][x], malla.node_ids[y + DIRECCIONES[j].1][x + DIRECCIONES[j].0];
            v in VecinosMalla(malla, u, x, y) &&
            u in VecinosMalla(malla, v, x + DIRECCIONES[j].0, y + DIRECCIONES[j].1)
  {
    var nx, ny := x + DIRECCIONES[j].0, y + DIRECCIONES[j].1;
    var u, v := malla.node_ids[y][x], malla.node_ids[ny][nx];
    IdDeNodo(malla, x, y);
    IdDeNodo(malla, nx, ny);
    var r := if j == 0 then 1 else if j == 1 then 0 else if j == 2 then 3 else 2;
    assert nx + DIRECCIONES[r].0 == x && ny + DIRECCIONES[r].1 == y;
    RectoEn(malla, x, y, 4, j);
    RectoEn(malla, nx, ny, 4, r);
  }

  /** The two loops over the moves for node `nodo` at `(x, y)`. */
  method ConectarNodo(malla: MallaConObstaculos, nodo: int, x: int, y: int) returns (lista: seq<int>)
    requires malla.Valid()
    ensures lista == VecinosMalla(malla, nodo, x, y)
  {
    lista := [];
    for k := 0 to 4
      invariant lista == Rectos(malla, x, y, k)
    {
      var (dx, dy) := DIRECCIONES[k];
      var nx, ny := x + dx, y + dy;
      var vecino_id := malla.GetNodeId(nx, ny);
      if vecino_id != -1 {
        lista := lista + [vecino_id];
      }
    }
    for k := 0 to 4
      invariant lista == Rectos(malla, x, y, 4) + Cruzados(malla, nodo, x, y, k)
    {
      var (dx, dy) := DIAGONALES[k];
      var nx, ny := x + dx, y + dy;
      var vecino_id := malla.GetNodeId(nx, ny);
      if vecino_id != -1 {
        if (nodo + nx + ny) % 2 == 0 {
          lista := lista + [vecino_id];
        }
      }
    }
  }

  // ---------------------------------------------------------------------------------------
  // Mapping mesh nodes to cells

  /** Node `v` sits at `c`: a FREE cell of the mesh whose id is `v`. */
  ghost predicate Ubicado(malla: MallaConObstaculos, c: (int, int), v: int)
    reads malla
    requires malla.Valid()
  {
    EnLimites(c.0, c.1) && malla.grid[c.1][c.0] == FREE && malla.node_ids[c.1][c.0] == v
  }

  /** Row `y` of a freshly numbered mesh: its FREE cells carry the ids that follow the
      FREE cells above it, in order, and its other cells -1. */
  ghost predicate FilaNumerada(g: seq<seq<CellType>>, ids: seq<seq<int>>, y: int)
    requires Rejilla(g) && Rejilla(ids) && 0 <= y < GRID_HEIGHT
  {
    forall x :: 0 <= x < GRID_WIDTH ==>
      ids[y][x] == if g[y][x] == FREE then LibresAntes(g, y) + LibresFila(g[y], x) else -1
  }

  lemma FilasNumeradas(malla: MallaConObstaculos, y: int)
    requires malla.Numerada() && 0 <= y < GRID_HEIGHT
    ensures FilaNumerada(malla.grid, malla.node_ids, y)
    ensures LibresAntes(malla.grid, y + 1) <= malla.next_node_id
  {
    LibresAntesCrece(malla.grid, y + 1, GRID_HEIGHT);
    forall x | 0 <= x < GRID_WIDTH
      ensures malla.node_ids[y][x] == if malla.grid[y][x] == FREE then LibresAntes(malla.grid, y) + LibresFila(malla.grid[y], x) else -1
    {
      assert EnLimites(x, y);
    }
  }

  /** The mapping loop: the cells with an id, in row-major order, fill `nodo_a_coord` and
      append their positions; node `v` ends up at the cell whose id is `v`. */
  method MapearNodos(malla: MallaConObstaculos, grafo: GrafoGrande)
    returns (nodo_a_coord: array<(int, int)>, nodo_actual: int)
    requires malla.Numerada() && grafo.pos_x == [] && grafo.pos_y == []
    modifies grafo
    ensures fresh(nodo_a_coord) && nodo_a_coord.Length == nodo_actual == malla.next_node_id
    ensures forall v :: 0 <= v < nodo_actual ==> Ubicado(malla, nodo_a_coord[v], v)
    ensures |grafo.pos_x| == |grafo.pos_y| == nodo_actual
    ensures forall v :: 0 <= v < nodo_actual ==>
              grafo.pos_x[v] == nodo_a_coord[v].0 && grafo.pos_y[v] == nodo_a_coord[v].1
    ensures grafo.offset == old(grafo.offset) && grafo.neighbors == old(grafo.neighbors)
    ensures grafo.weights == old(grafo.weights) && grafo.origenes == old(grafo.origenes)
    ensures grafo.num_nodos == old(grafo.num_nodos)
  {
    nodo_a_coord := new (int, int)[malla.GetTotalNodes()](_ => (0, 0));
    nodo_actual := 0;
    for y := 0 to GRID_HEIGHT
      invariant nodo_actual == LibresAntes(malla.grid, y) <= nodo_a_coord.Length
      invariant forall v :: 0 <= v < nodo_actual ==> Ubicado(malla, nodo_a_coord[v], v)
      invariant |grafo.pos_x| == |grafo.pos_y| == nodo_actual
      invariant forall v :: 0 <= v < nodo_actual ==>
                  grafo.pos_x[v] == nodo_a_coord[v].0 && grafo.pos_y[v] == nodo_a_coord[v].1
      invariant grafo.offset == old(grafo.offset) && grafo.neighbors == old(grafo.neighbors)
      invariant grafo.weights == old(grafo.weights) && grafo.origenes == old(grafo.origenes)
      invariant grafo.num_nodos == old(grafo.num_nodos)
    {
      FilasNumeradas(malla, y);
      nodo_actual := MapearFila(malla, grafo, nodo_a_coord, y, nodo_actual);
    }
  }

  /** The inner loop of the mapping over row `y`. */
  method MapearFila(malla: MallaConObstaculos, grafo: GrafoGrande, nodo_a_coord: array<(int, int)>,
                    y: int, nodo_actual: int) returns (nodo_actual': int)
    requires malla.Valid() && 0 <= y < GRID_HEIGHT && FilaNumerada(malla.grid, malla.node_ids, y)
    requires nodo_actual == LibresAntes(malla.grid, y) && LibresAntes(malla.grid, y + 1) <= nodo_a_coord.Length
    requires forall v :: 0 <= v < nodo_actual ==> Ubicado(malla, nodo_a_coord[v], v)
    requires |grafo.pos_x| == |grafo.pos_y| == nodo_actual
    requires forall v :: 0 <= v < nodo_actual ==>
               grafo.pos_x[v] == nodo_a_coord[v].0 && grafo.pos_y[v] == nodo_a_coord[v].1
    modifies grafo, nodo_a_coord
    ensures nodo_actual' == LibresAntes(malla.grid, y + 1)
    ensures forall v :: 0 <= v < nodo_actual' ==> Ubicado(malla, nodo_a_coord[v], v)
    ensures |grafo.pos_x| == |grafo.pos_y| == nodo_actual'
    ensures forall v :: 0 <= v < nodo_actual' ==>
              grafo.pos_x[v] == nodo_a_coord[v].0 && grafo.pos_y[v] == nodo_a_coord[v].1
    ensures grafo.offset == old(grafo.offset) && grafo.neighbors == old(grafo.neighbors)
    ensures grafo.weights == old(grafo.weights) && grafo.origenes == old(grafo.origenes)
    ensures grafo.num_nodos == old(grafo.num_nodos)
  {
    nodo_actual' := nodo_actual;
    for x := 0 to GRID_WIDTH
      invariant nodo_actual' == LibresAntes(malla.grid, y) + LibresFila(malla.grid[y], x) <= nodo_a_coord.Length
      invariant forall v :: 0 <= v < nodo_actual' ==> Ubicado(malla, nodo_a_coord[v], v)
      invariant |grafo.pos_x| == |grafo.pos_y| == nodo_actual'
      invariant forall v :: 0 <= v < nodo_actual' ==>
                  grafo.pos_x[v] == nodo_a_coord[v].0 && grafo.pos_y[v] == nodo_a_coord[v].1
      invariant grafo.offset == old(grafo.offset) && grafo.neighbors == old(grafo.neighbors)
      invariant grafo.weights == old(grafo.weights) && grafo.origenes == old(grafo.origenes)
      invariant grafo.num_nodos == old(grafo.num_nodos)
    {
      if malla.GetNodeId(x, y) != -1 {
        LibresFilaCrece(malla.grid[y], x + 1, GRID_WIDTH);
        nodo_a_coord[nodo_actual'] := (x, y);
        grafo.AgregarPosicion(x, y);
        nodo_actual' := nodo_actual' + 1;
      }
    }
  }

  // ---------------------------------------------------------------------------------------
  // From the lists to the CSR arrays

  /** The lists laid end to end. */
  ghost function Aplanar(listas: seq<seq<int>>): seq<int>
  {
    if listas == [] then [] else Aplanar(listas[..|listas| - 1]) + listas[|listas| - 1]
  }

  lemma {:induction false} AplanarUnir(a: seq<seq<int>>, b: seq<seq<int>>)
    ensures Aplanar(a + b) == Aplanar(a) + Aplanar(b)
  {
    if b == [] {
      assert a + b == a;
    } else {
      AplanarUnir(a, b[..|b| - 1]);
      assert (a + b)[..|a + b| - 1] == a + b[..|b| - 1];
    }
  }

  /** Lists of the same lengths flatten to sequences of the same length. */
  lemma {:induction false} AplanarLongitud(a: seq<seq<int>>, b: seq<seq<int>>)
    requires |a| == |b| && forall u :: 0 <= u < |a| ==> |a[u]| == |b[u]|
    ensures |Aplanar(a)| == |Aplanar(b)|
  {
    if a != [] {
      AplanarLongitud(a[..|a| - 1], b[..|b| - 1]);
    }
  }

  /** Each list replaced by as many copies of its own index: the origins of the edges. */
  ghost function Rotulos(listas: seq<seq<int>>): (r: seq<seq<int>>)
    ensures |r| == |listas| && forall u :: 0 <= u < |listas| ==> r[u] == seq(|listas[u]|, _ => u)
  {
    seq(|listas|, u requires 0 <= u < |listas| => seq(|listas[u]|, _ => u))
  }

  /** The `offset` counters after the lists of nodes `0 .. n - 1` were added. */
  ghost function Contadores(listas: seq<seq<int>>, n: int): (r: seq<int>)
    requires 0 <= n <= |listas| <= MAX_NODES_LARGE
    ensures |r| == MAX_NODES_LARGE + 1 && r[0] == 0
    ensures forall i :: 1 <= i <= MAX_NODES_LARGE ==> r[i] == if i <= n then |listas[i - 1]| else 0
  {
    seq(MAX_NODES_LARGE + 1, i requires 0 <= i <= MAX_NODES_LARGE => if 1 <= i <= n then |listas[i - 1]| else 0)
  }

  /** Node `u`'s list sits in the flattened lists right after the lists of the nodes
      before `u`. */
  lemma TramoAplanado(listas: seq<seq<int>>, u: int)
    requires 0 <= u < |listas|
    ensures |Aplanar(listas[..u + 1])| == |Aplanar(listas[..u])| + |listas[u]| <= |Aplanar(listas)|
    ensures Aplanar(listas)[|Aplanar(listas[..u])| .. |Aplanar(listas[..u + 1])|] == listas[u]
  {
    assert listas[..u + 1][..u] == listas[..u];
    assert listas == listas[..u + 1] + listas[u + 1..];
    AplanarUnir(listas[..u + 1], listas[u + 1..]);
  }

  /** The same place in the flattened origins holds as many copies of `u`. */
  lemma RotulosAplanados(listas: seq<seq<int>>, u: int)
    requires 0 <= u < |listas|
    ensures |Aplanar(Rotulos(listas))| == |Aplanar(listas)|
    ensures 0 <= |Aplanar(listas[..u])| <= |Aplanar(listas[..u + 1])| <= |Aplanar(listas)|
    ensures forall i :: |Aplanar(listas[..u])| <= i < |Aplanar(listas[..u + 1])| ==> Aplanar(Rotulos(listas))[i] == u
  {
    TramoAplanado(listas, u);
    var r := Rotulos(listas);
    AplanarLongitud(r, listas);
    AplanarLongitud(r[..u], listas[..u]);
    AplanarLongitud(r[..u + 1], listas[..u + 1]);
    TramoAplanado(r, u);
  }

  /** The prefix sums of the counters are the lengths of the flattened prefixes. */
  lemma {:induction false} AcumuladoContadores(listas: seq<seq<int>>, u: int)
    requires |listas| <= MAX_NODES_LARGE && 0 <= u <= MAX_NODES_LARGE
    ensures Acumulado(Contadores(listas, |listas|), u + 1) == |Aplanar(listas[..Min(u, |listas|)])|
  {
    var c := Contadores(listas, |listas|);
    if u > 0 {
      AcumuladoContadores(listas, u - 1);
      if u <= |listas| {
        assert listas[..u][..u - 1] == listas[..u - 1];
      }
    }
  }

  /** The CSR arrays while step 4 adds the lists: those of nodes `0 .. nodo - 1` and the
      first `j` entries of node `nodo`'s list are in, counted and weighed. */
  ghost predicate Cargados(offset: seq<int>, vecinos: seq<int>, pesos: seq<int>, origenes: seq<int>,
                           listas: seq<seq<int>>, peso: (int, int) -> nat, nodo: int, j: int)
  {
    0 <= nodo < |listas| <= MAX_NODES_LARGE && 0 <= j <= |listas[nodo]| &&
    offset == Contadores(listas, nodo)[nodo + 1 := j] &&
    vecinos == Aplanar(listas[..nodo]) + listas[nodo][..j] &&
    origenes == Aplanar(Rotulos(listas[..nodo])) + seq(j, _ => nodo) &&
    |pesos| == |vecinos| == |origenes| &&
    forall i :: 0 <= i < |pesos| ==> pesos[i] == peso(origenes[i], vecinos[i])
  }

  /** One `agregar_arista` moves to the next entry. */
  lemma CargadosPaso(offset: seq<int>, vecinos: seq<int>, pesos: seq<int>, origenes: seq<int>,
                     listas: seq<seq<int>>, peso: (int, int) -> nat, nodo: int, j: int)
    requires Cargados(offset, vecinos, pesos, origenes, listas, peso, nodo, j) && j < |listas[nodo]|
    ensures Cargados(offset[nodo + 1 := offset[nodo + 1] + 1], vecinos + [listas[nodo][j]],
                     pesos + [peso(nodo, listas[nodo][j])], origenes + [nodo], listas, peso, nodo, j + 1)
  {
    assert listas[nodo][..j + 1] == listas[nodo][..j] + [listas[nodo][j]];
    assert seq(j + 1, _ => nodo) == seq(j, _ => nodo) + [nodo];
  }

  /** A complete list moves to the next node, or to the end. */
  lemma CargadosCierre(offset: seq<int>, vecinos: seq<int>, pesos: seq<int>, origenes: seq<int>,
                       listas: seq<seq<int>>, peso: (int, int) -> nat, nodo: int)
    requires 0 <= nodo < |listas| && Cargados(offset, vecinos, pesos, origenes, listas, peso, nodo, |listas[nodo]|)
    ensures offset == Contadores(listas, nodo + 1)
    ensures vecinos == Aplanar(listas[..nodo + 1]) && origenes == Aplanar(Rotulos(listas[..nodo + 1]))
  {
    assert listas[nodo][..|listas[nodo]|] == listas[nodo];
    assert listas[..nodo + 1][..nodo] == listas[..nodo];
    assert Rotulos(listas[..nodo + 1])[..nodo] == Rotulos(listas[..nodo]);
  }

  /** The inner loop of step 4 for node `nodo`: one `agregar_arista` per list entry. */
  method AgregarLista(grafo: GrafoGrande, nodo: int, lista: seq<int>, peso: (int, int) -> nat,
                      ghost listas: seq<seq<int>>)
    requires grafo.Contando() && 0 <= nodo < |listas| && lista == listas[nodo]
    requires Cargados(grafo.offset, grafo.neighbors, grafo.weights, grafo.origenes, listas, peso, nodo, 0)
    modifies grafo
    ensures grafo.Contando()
    ensures Cargados(grafo.offset, grafo.neighbors, grafo.weights, grafo.origenes, listas, peso, nodo, |lista|)
    ensures grafo.pos_x == old(grafo.pos_x) && grafo.pos_y == old(grafo.pos_y)
    ensures grafo.num_nodos == old(grafo.num_nodos)
  {
    for j := 0 to |lista|
      invariant grafo.Contando()
      invariant Cargados(grafo.offset, grafo.neighbors, grafo.weights, grafo.origenes, listas, peso, nodo, j)
      invariant grafo.pos_x == old(grafo.pos_x) && grafo.pos_y == old(grafo.pos_y)
      invariant grafo.num_nodos == old(grafo.num_nodos)
    {
      var vecino := lista[j];
      CargadosPaso(grafo.offset, grafo.neighbors, grafo.weights, grafo.origenes, listas, peso, nodo, j);
      grafo.AgregarArista(nodo, vecino, peso(nodo, vecino));
    }
  }

  /** Step 4: the lists added node by node, so the edges are grouped by origin. */
  method AgregarAristas(grafo: GrafoGrande, temp_adyacencias: seq<seq<int>>, peso: (int, int) -> nat)
    requires grafo.Contando() && grafo.offset == seq(MAX_NODES_LARGE + 1, _ => 0)
    requires grafo.neighbors == [] && grafo.weights == [] && grafo.origenes == []
    requires |temp_adyacencias| <= MAX_NODES_LARGE
    modifies grafo
    ensures grafo.Contando()
    ensures grafo.offset == Contadores(temp_adyacencias, |temp_adyacencias|)
    ensures grafo.neighbors == Aplanar(temp_adyacencias) && grafo.origenes == Aplanar(Rotulos(temp_adyacencias))
    ensures |grafo.weights| == |grafo.neighbors| == |grafo.origenes|
    ensures forall i :: 0 <= i < |grafo.weights| ==> grafo.weights[i] == peso(grafo.origenes[i], grafo.neighbors[i])
    ensures grafo.pos_x == old(grafo.pos_x) && grafo.pos_y == old(grafo.pos_y)
    ensures grafo.num_nodos == old(grafo.num_nodos)
  {
    assert grafo.offset == Contadores(temp_adyacencias, 0);
    assert temp_adyacencias[..0] == [] && Rotulos([]) == [];
    for nodo := 0 to |temp_adyacencias|
      invariant grafo.Contando()
      invariant grafo.offset == Contadores(temp_adyacencias, nodo)
      invariant grafo.neighbors == Aplanar(temp_adyacencias[..nodo])
      invariant grafo.origenes == Aplanar(Rotulos(temp_adyacencias[..nodo]))
      invariant |grafo.weights| == |grafo.neighbors| == |grafo.origenes|
      invariant forall i :: 0 <= i < |grafo.weights| ==> grafo.weights[i] == peso(grafo.origenes[i], grafo.neighbors[i])
      invariant grafo.pos_x == old(grafo.pos_x) && grafo.pos_y == old(grafo.pos_y)
      invariant grafo.num_nodos == old(grafo.num_nodos)
    {
      assert temp_adyacencias[nodo][..0] == [];
      assert Contadores(temp_adyacencias, nodo)[nodo + 1 := 0] == Contadores(temp_adyacencias, nodo);
      AgregarLista(grafo, nodo, temp_adyacencias[nodo], peso, temp_adyacencias);
      CargadosCierre(grafo.offset, grafo.neighbors, grafo.weights, grafo.origenes, temp_adyacencias, peso, nodo);
    }
    assert temp_adyacencias[..|temp_adyacencias|] == temp_adyacencias;
  }

  /** Step 3: node by node, the list of its neighbours. */
  method GenerarAdyacencias(malla: MallaConObstaculos, nodo_a_coord: array<(int, int)>)
    returns (temp_adyacencias: seq<seq<int>>)
    requires malla.Numerada() && nodo_a_coord.Length == malla.next_node_id
    ensures |temp_adyacencias| == nodo_a_coord.Length
    ensures forall u :: 0 <= u < |temp_adyacencias| ==>
              temp_adyacencias[u] == VecinosMalla(malla, u, nodo_a_coord[u].0, nodo_a_coord[u].1)
    ensures forall u, v :: 0 <= u < |temp_adyacencias| && v in temp_adyacencias[u] ==> 0 <= v < |temp_adyacencias|
  {
    temp_adyacencias := [];
    for nodo := 0 to nodo_a_coord.Length
      invariant |temp_adyacencias| == nodo
      invariant forall u :: 0 <= u < nodo ==>
                  temp_adyacencias[u] == VecinosMalla(malla, u, nodo_a_coord[u].0, nodo_a_coord[u].1)
      invariant forall u, v :: 0 <= u < nodo && v in temp_adyacencias[u] ==> 0 <= v < nodo_a_coord.Length
    {
      var (x, y) := nodo_a_coord[nodo];
      var lista := ConectarNodo(malla, nodo, x, y);
      VecinosSonNodos(malla, nodo, x, y);
      temp_adyacencias := temp_adyacencias + [lista];
    }
  }

  /** The CSR arrays the construction leaves for `listas`: finalized offsets over the list
      lengths, the lists flattened in node order, and each edge weighed by `peso` on its two
      ends. */
  ghost predicate Construida(listas: seq<seq<int>>, offset: seq<int>, vecinos: seq<int>, pesos: seq<int>,
                             origenes: seq<int>, peso: (int, int) -> nat)
  {
    && |listas| <= MAX_NODES_LARGE && |offset| == MAX_NODES_LARGE + 1
    && (forall w :: 0 <= w <= MAX_NODES_LARGE ==> offset[w] == Acumulado(Contadores(listas, |listas|), w + 1))
    && vecinos == Aplanar(listas) && origenes == Aplanar(Rotulos(listas))
    && |pesos| == |vecinos| == |origenes|
    && forall i :: 0 <= i < |pesos| ==> pesos[i] == peso(origenes[i], vecinos[i])
  }

  /** Node `u`'s slice of the CSR arrays the construction leaves: its list, each edge with
      the weight `peso` gives it. */
  lemma TramoConstruido(listas: seq<seq<int>>, offset: seq<int>, vecinos: seq<int>, pesos: seq<int>,
                        origenes: seq<int>, peso: (int, int) -> nat, u: int)
    requires Construida(listas, offset, vecinos, pesos, origenes, peso) && 0 <= u < |listas|
    ensures ListaEn(offset, vecinos, pesos, listas[u], peso, u)
  {
    var a, b := |Aplanar(listas[..u])|, |Aplanar(listas[..u + 1])|;
    AcumuladoContadores(listas, u);
    AcumuladoContadores(listas, u + 1);
    assert offset[u] == a && offset[u + 1] == b;
    TramoAplanado(listas, u);
    RotulosAplanados(listas, u);
    forall i | a <= i < b
      ensures pesos[i] == peso(u, vecinos[i])
    {
      assert origenes[i] == u;
    }
  }

  /** Node `u`'s CSR slice holds `lista`, every edge in it weighing what `peso` gives for
      its two ends. */
  ghost predicate ListaEn(offset: seq<int>, vecinos: seq<int>, pesos: seq<int>, lista: seq<int>,
                          peso: (int, int) -> nat, u: int)
  {
    0 <= u && u + 1 < |offset| && 0 <= offset[u] <= offset[u + 1] <= |vecinos| == |pesos| &&
    vecinos[offset[u]..offset[u + 1]] == lista &&
    forall i :: offset[u] <= i < offset[u + 1] ==> pesos[i] == peso(u, vecinos[i])
  }

  /** A slice holding a list of nodes is a well-formed slice of the graph. */
  lemma TramoDeLista(g: Grafo, lista: seq<int>, peso: (int, int) -> nat, u: int)
    requires ListaEn(g.offset, g.vecinos, g.pesos, lista, peso, u) && u < g.n < |g.offset|
    requires forall v :: v in lista ==> 0 <= v < g.n
    ensures Tramo(g, u)
  {
    forall i | g.offset[u] <= i < g.offset[u + 1]
      ensures 0 <= g.vecinos[i] < g.n
    {
      assert g.vecinos[i] == lista[i - g.offset[u]] && lista[i - g.offset[u]] in lista;
    }
  }

  /** Steps 2 to 4 of `generar_grafo_con_malla_obstaculos` on a freshly numbered mesh and a
      freshly initialized graph: the nodes are the FREE cells, node `u` sits at the cell whose
      id is `u`, its CSR slice is its neighbour list in the order the moves are tried, every
      edge weighs what `peso` gives for its two ends, and the searches may run on the result. */
  method ConstruirGrafo(malla: MallaConObstaculos, grafo: GrafoGrande, peso: (int, int) -> nat)
    returns (nodo_a_coord: array<(int, int)>)
    requires malla.Numerada() && grafo.Vacio()
    modifies grafo
    ensures grafo.num_nodos == malla.next_node_id == nodo_a_coord.Length
    ensures forall v :: 0 <= v < grafo.num_nodos ==> Ubicado(malla, nodo_a_coord[v], v)
    ensures |grafo.pos_x| == |grafo.pos_y| == grafo.num_nodos
    ensures forall v :: 0 <= v < grafo.num_nodos ==>
              grafo.pos_x[v] == nodo_a_coord[v].0 && grafo.pos_y[v] == nodo_a_coord[v].1
    ensures grafo.Listo() && PesosNoNegativos(grafo.Vista())
    ensures forall u :: 0 <= u < grafo.num_nodos ==>
              ListaEn(grafo.offset, grafo.neighbors, grafo.weights,
                      VecinosMalla(malla, u, nodo_a_coord[u].0, nodo_a_coord[u].1), peso, u)
  {
    var temp_adyacencias;
    nodo_a_coord, temp_adyacencias := CargarGrafo(malla, grafo, peso);
    CerrarGrafo(grafo, nodo_a_coord.Length, temp_adyacencias, peso);
  }

  /** Steps 2 to 4 up to the end of the edge loop: the positions pushed, the lists computed
      and their edges added. */
  method CargarGrafo(malla: MallaConObstaculos, grafo: GrafoGrande, peso: (int, int) -> nat)
    returns (nodo_a_coord: array<(int, int)>, temp_adyacencias: seq<seq<int>>)
    requires malla.Numerada()
    requires grafo.Contando() && grafo.offset == seq(MAX_NODES_LARGE + 1, _ => 0)
    requires grafo.neighbors == [] && grafo.weights == [] && grafo.origenes == []
    requires grafo.pos_x == [] && grafo.pos_y == []
    modifies grafo
    ensures fresh(nodo_a_coord) && malla.next_node_id == nodo_a_coord.Length == |temp_adyacencias| <= MAX_NODES_LARGE
    ensures forall v :: 0 <= v < nodo_a_coord.Length ==> Ubicado(malla, nodo_a_coord[v], v)
    ensures |grafo.pos_x| == |grafo.pos_y| == nodo_a_coord.Length
    ensures forall v :: 0 <= v < nodo_a_coord.Length ==>
              grafo.pos_x[v] == nodo_a_coord[v].0 && grafo.pos_y[v] == nodo_a_coord[v].1
    ensures forall u :: 0 <= u < |temp_adyacencias| ==>
              temp_adyacencias[u] == VecinosMalla(malla, u, nodo_a_coord[u].0, nodo_a_coord[u].1)
    ensures forall u, v :: 0 <= u < |temp_adyacencias| && v in temp_adyacencias[u] ==> 0 <= v < |temp_adyacencias|
    ensures grafo.offset == Contadores(temp_adyacencias, |temp_adyacencias|)
    ensures grafo.neighbors == Aplanar(temp_adyacencias) && grafo.origenes == Aplanar(Rotulos(temp_adyacencias))
    ensures |grafo.weights| == |grafo.neighbors| == |grafo.origenes|
    ensures forall i :: 0 <= i < |grafo.weights| ==> grafo.weights[i] == peso(grafo.origenes[i], grafo.neighbors[i])
  {
    var nodo_actual;
    nodo_a_coord, nodo_actual := MapearNodos(malla, grafo);
    temp_adyacencias := GenerarAdyacencias(malla, nodo_a_coord);
    LibresAntesAcotado(malla.grid, GRID_HEIGHT);
    AgregarAristas(grafo, temp_adyacencias, peso);
  }

  /** The end of step 4: the node count set and the offsets turned into slice starts; every
      node's slice then holds its list. */
  method CerrarGrafo(grafo: GrafoGrande, nodo_actual: int, listas: seq<seq<int>>, peso: (int, int) -> nat)
    requires nodo_actual == |listas| <= MAX_NODES_LARGE
    requires forall u, v :: 0 <= u < |listas| && v in listas[u] ==> 0 <= v < |listas|
    requires grafo.offset == Contadores(listas, |listas|)
    requires grafo.neighbors == Aplanar(listas) && grafo.origenes == Aplanar(Rotulos(listas))
    requires |grafo.weights| == |grafo.neighbors| == |grafo.origenes|
    requires forall i :: 0 <= i < |grafo.weights| ==> grafo.weights[i] == peso(grafo.origenes[i], grafo.neighbors[i])
    modifies grafo
    ensures grafo.num_nodos == nodo_actual && grafo.Listo() && PesosNoNegativos(grafo.Vista())
    ensures forall u :: 0 <= u < |listas| ==> ListaEn(grafo.offset, grafo.neighbors, grafo.weights, listas[u], peso, u)
    ensures grafo.pos_x == old(grafo.pos_x) && grafo.pos_y == old(grafo.pos_y)
  {
    grafo.num_nodos := nodo_actual;
    grafo.FinalizarConstruccion();
    Enlazado(grafo.Vista(), grafo.origenes, listas, peso);
  }

  /** Every slice of the CSR arrays the construction leaves holds its node's list. */
  lemma Enlazado(g: Grafo, origenes: seq<int>, listas: seq<seq<int>>, peso: (int, int) -> nat)
    requires g.n == |listas| && Construida(listas, g.offset, g.vecinos, g.pesos, origenes, peso)
    requires forall u, v :: 0 <= u < |listas| && v in listas[u] ==> 0 <= v < |listas|
    ensures BienFormado(g) && PesosNoNegativos(g)
    ensures forall u :: 0 <= u < |listas| ==> ListaEn(g.offset, g.vecinos, g.pesos, listas[u], peso, u)
  {
    forall u | 0 <= u < |listas|
      ensures ListaEn(g.offset, g.vecinos, g.pesos, listas[u], peso, u) && Tramo(g, u)
    {
      TramoConstruido(listas, g.offset, g.vecinos, g.pesos, origenes, peso, u);
      TramoDeLista(g, listas[u], peso, u);
    }
    forall i | 0 <= i < |g.pesos|
      ensures g.pesos[i] >= 0
    {
      assert g.pesos[i] == peso(origenes[i], g.vecinos[i]);
    }
  }

  /** `generar_grafo_con_malla_obstaculos` with the mesh's draws and the edge weights given:
      a fresh graph, a fresh mesh generated from the draws, and the graph built from it.
      The mesh, which the source discards, is returned as a ghost so that the contract can
      name the cells and edges of the result. */
  method GenerarGrafoConMallaObstaculos(sorteo: seq<seq<CellType>>, edificios: seq<Edificio>,
                                        agua: seq<seq<CellType>>, peso: (int, int) -> nat)
    returns (grafo: GrafoGrande, ok: bool, ghost malla: MallaConObstaculos)
    requires Rejilla(sorteo) && Rejilla(agua) && SoloAgua(agua)
    requires |edificios| == NUM_EDIFICIOS && forall i :: 0 <= i < |edificios| ==> Sorteable(edificios[i])
    ensures ok && grafo.Listo() && PesosNoNegativos(grafo.Vista())
    ensures malla.Numerada() && malla.grid == Generada(TodoLibre(), sorteo, edificios, agua)
    ensures grafo.num_nodos == TotalLibres(Generada(TodoLibre(), sorteo, edificios, agua))
    ensures |grafo.pos_x| == |grafo.pos_y| == grafo.num_nodos
    ensures forall u :: 0 <= u < grafo.num_nodos ==>
              && Ubicado(malla, (grafo.pos_x[u], grafo.pos_y[u]), u)
              && ListaEn(grafo.offset, grafo.neighbors, grafo.weights,
                         VecinosMalla(malla, u, grafo.pos_x[u], grafo.pos_y[u]), peso, u)
  {
    var m := NuevaMalla(sorteo, edificios, agua);
    grafo, ok := GrafoDeMalla(m, peso);
    malla := m;
  }

  /** A fresh graph, initialized, then built from the numbered mesh: node `u` sits at the
      FREE cell numbered `u`, and its slice holds its neighbour list under the edge rule. */
  method GrafoDeMalla(malla: MallaConObstaculos, peso: (int, int) -> nat) returns (grafo: GrafoGrande, ok: bool)
    requires malla.Numerada()
    ensures fresh(grafo) && ok && grafo.Listo() && PesosNoNegativos(grafo.Vista())
    ensures grafo.num_nodos == malla.next_node_id && |grafo.pos_x| == |grafo.pos_y| == grafo.num_nodos
    ensures forall u :: 0 <= u < grafo.num_nodos ==>
              && Ubicado(malla, (grafo.pos_x[u], grafo.pos_y[u]), u)
              && ListaEn(grafo.offset, grafo.neighbors, grafo.weights,
                         VecinosMalla(malla, u, grafo.pos_x[u], grafo.pos_y[u]), peso, u)
  {
    grafo := new GrafoGrande();
    ok := grafo.Inicializar();
    var nodo_a_coord := ConstruirGrafo(malla, grafo, peso);
    forall u | 0 <= u < grafo.num_nodos
      ensures (grafo.pos_x[u], grafo.pos_y[u]) == nodo_a_coord[u]
    {
    }
  }

  /** Step 1: a fresh mesh, generated from the draws and numbered. */
  method NuevaMalla(sorteo: seq<seq<CellType>>, edificios: seq<Edificio>, agua: seq<seq<CellType>>)
    returns (malla: MallaConObstaculos)
    requires Rejilla(sorteo) && Rejilla(agua) && SoloAgua(agua)
    requires |edificios| == NUM_EDIFICIOS && forall i :: 0 <= i < |edificios| ==> Sorteable(edificios[i])
    ensures fresh(malla) && malla.Numerada() && malla.grid == Generada(TodoLibre(), sorteo, edificios, agua)
    ensures malla.next_node_id == TotalLibres(Generada(TodoLibre(), sorteo, edificios, agua))
  {
    malla := new MallaConObstaculos();
    var ok := malla.GenerarMalla(sorteo, edificios, agua);
  }
}
