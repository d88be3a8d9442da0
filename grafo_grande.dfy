/** The large-scale graph: a CSR structure built in two phases.  While edges are added,
    `offset[u + 1]` counts the edges leaving `u` and `neighbors`/`weights` grow in insertion
    order; `FinalizarConstruccion` then turns the counters into prefix sums, so that node
    `u`'s edges are `[offset[u], offset[u + 1])` whenever they were added grouped by origin. */
module GrafoGrande {
  import opened Csr

  const MAX_NODES_LARGE: int := 2000000
  const AVG_DEGREE: int := 6
  const MAX_EDGES_LARGE: int := MAX_NODES_LARGE * AVG_DEGREE

  /** Size in bytes of an `int` and of a `float` on the targets the program is built for. */
  const SIZEOF_INT: int := 4
  const SIZEOF_FLOAT: int := 4

  lemma MaxAristas()
    ensures MAX_EDGES_LARGE == 12000000
  {
  }

  /** `s[0] + ... + s[k - 1]`. */
  function Acumulado(s: seq<int>, k: int): (r: int)
    requires 0 <= k <= |s|
    ensures (forall i :: 0 <= i < k ==> s[i] >= 0) ==> r >= 0
  {
    if k == 0 then 0 else Acumulado(s, k - 1) + s[k - 1]
  }

  /** Prefix sums of non-negative counters never decrease. */
  lemma {:induction false} AcumuladoCreciente(s: seq<int>, j: int, k: int)
    requires 0 <= j <= k <= |s|
    requires forall i :: 0 <= i < |s| ==> s[i] >= 0
    ensures Acumulado(s, j) <= Acumulado(s, k)
    decreases k - j
  {
    if j < k {
      AcumuladoCreciente(s, j, k - 1);
    }
  }

  /** How many entries of `s` equal `u`. */
  function Cuenta(s: seq<int>, u: int): (r: nat)
    ensures r <= |s|
    ensures r == 0 <==> forall k :: 0 <= k < |s| ==> s[k] != u
  {
    if s == [] then 0 else Cuenta(s[..|s| - 1], u) + (if s[|s| - 1] == u then 1 else 0)
  }

  /** How many entries of `s` are below `u`. */
  function Menores(s: seq<int>, u: int): (r: nat)
    ensures r <= |s|
    ensures r == |s| <==> forall k :: 0 <= k < |s| ==> s[k] < u
  {
    if s == [] then 0 else Menores(s[..|s| - 1], u) + (if s[|s| - 1] < u then 1 else 0)
  }

  lemma {:induction false} MenoresSiguiente(s: seq<int>, u: int)
    ensures Menores(s, u + 1) == Menores(s, u) + Cuenta(s, u)
  {
    if s != [] {
      MenoresSiguiente(s[..|s| - 1], u);
    }
  }

  lemma {:induction false} MenoresCero(s: seq<int>)
    requires forall k :: 0 <= k < |s| ==> s[k] >= 0
    ensures Menores(s, 0) == 0
  {
    if s != [] {
      MenoresCero(s[..|s| - 1]);
    }
  }

  /** Appending `u` adds one to the count of `u` and to the count of every bound above `u`. */
  lemma AgregarOrigen(s: seq<int>, u: int)
    ensures forall w :: Cuenta(s + [u], w) == Cuenta(s, w) + (if w == u then 1 else 0)
    ensures forall w :: Menores(s + [u], w) == Menores(s, w) + (if u < w then 1 else 0)
  {
    assert (s + [u])[..|s|] == s;
  }

  /** The counters `c` (with `c[0] == 0`) of the origins `o` sum up to the number of origins
      below each bound. */
  lemma {:induction false} AcumuladoDeCuentas(c: seq<int>, o: seq<int>, u: int)
    requires |c| >= 1 && c[0] == 0 && 0 <= u < |c|
    requires forall w :: 0 <= w < |c| - 1 ==> c[w + 1] == Cuenta(o, w)
    requires forall k :: 0 <= k < |o| ==> o[k] >= 0
    ensures Acumulado(c, u + 1) == Menores(o, u)
  {
    if u == 0 {
      MenoresCero(o);
    } else {
      AcumuladoDeCuentas(c, o, u - 1);
      MenoresSiguiente(o, u - 1);
    }
  }

  ghost predicate Ordenados(s: seq<int>)
  {
    forall i, j :: 0 <= i < j < |s| ==> s[i] <= s[j]
  }

  /** In a non-decreasing sequence the entries below `u` are exactly its first
      `Menores(s, u)` entries. */
  lemma {:induction false} MenoresPrefijo(s: seq<int>, u: int, k: int)
    requires Ordenados(s) && 0 <= k < |s|
    ensures k < Menores(s, u) <==> s[k] < u
  {
    var m := |s| - 1;
    if k < m {
      assert Ordenados(s[..m]);
      MenoresPrefijo(s[..m], u, k);
      assert s[..m][k] == s[k];
      if s[m] < u {
        assert s[k] <= s[m];
      }
    } else {
      if s[m] < u {
        assert forall i :: 0 <= i < m ==> s[..m][i] < u;
      } else {
        assert Menores(s[..m], u) <= m;
      }
    }
  }

  /** With origins in non-decreasing order, the slice `[Menores(o, u), Menores(o, u + 1))`
      holds exactly the positions whose origin is `u`. */
  lemma TramoOrdenado(o: seq<int>, u: int, k: int)
    requires Ordenados(o) && 0 <= k < |o|
    ensures Menores(o, u) <= k < Menores(o, u + 1) <==> o[k] == u
  {
    MenoresPrefijo(o, u, k);
    MenoresPrefijo(o, u + 1, k);
  }

  class GrafoGrande {
    var offset: seq<int>
    var neighbors: seq<int>
    var weights: seq<int>
    var pos_x: seq<int>
    var pos_y: seq<int>
    var num_nodos: int
    /** The origin passed to `AgregarArista` for each entry of `neighbors`. */
    ghost var origenes: seq<int>

    /** Construction phase: `offset[u + 1]` counts the edges added from `u`. */
    ghost predicate Contando()
      reads this
    {
      |offset| == MAX_NODES_LARGE + 1 && offset[0] == 0 &&
      |origenes| == |neighbors| == |weights| &&
      (forall k :: 0 <= k < |origenes| ==> 0 <= origenes[k] < MAX_NODES_LARGE) &&
      forall u :: 0 <= u < MAX_NODES_LARGE ==> offset[u + 1] == Cuenta(origenes, u)
    }

    /** After `FinalizarConstruccion`: `offset[u]` is the number of edges added from nodes
        below `u`. */
    ghost predicate Finalizado()
      reads this
    {
      |offset| == MAX_NODES_LARGE + 1 &&
      |origenes| == |neighbors| == |weights| &&
      (forall k :: 0 <= k < |origenes| ==> 0 <= origenes[k] < MAX_NODES_LARGE) &&
      forall u :: 0 <= u <= MAX_NODES_LARGE ==> offset[u] == Menores(origenes, u)
    }

    /** The graph as the searches see it. */
    function Vista(): (g: Grafo)
      reads this
      ensures g.n == num_nodos && g.offset == offset && g.vecinos == neighbors && g.pesos == weights
    {
      Grafo(offset, neighbors, weights, num_nodos)
    }

    /** The graph over all `MAX_NODES_LARGE` slots, as `dijkstra_grande.cpp` indexes it. */
    function VistaCompleta(): (g: Grafo)
      reads this
      ensures g.n == MAX_NODES_LARGE && g.offset == offset && g.vecinos == neighbors && g.pesos == weights
    {
      Grafo(offset, neighbors, weights, MAX_NODES_LARGE)
    }

    /** A graph the searches may run on: every node below `num_nodos` has a slice whose
        targets are nodes below `num_nodos`. */
    ghost predicate Listo()
      reads this
    {
      |offset| == MAX_NODES_LARGE + 1 && BienFormado(Vista())
    }

    constructor ()
      ensures num_nodos == 0 && offset == [] && neighbors == [] && weights == []
      ensures pos_x == [] && pos_y == [] && origenes == []
    {
      num_nodos := 0;
      offset := [];
      neighbors := [];
      weights := [];
      pos_x := [];
      pos_y := [];
      origenes := [];
    }

    /** Freshly initialized: no edge, no position, every counter 0. */
    ghost predicate Vacio()
      reads this
    {
      Contando() && offset == seq(MAX_NODES_LARGE + 1, _ => 0) &&
      neighbors == [] && weights == [] && origenes == [] && pos_x == [] && pos_y == []
    }

    /** Empties every array and sets `MAX_NODES_LARGE + 1` zero counters. */
    method Inicializar() returns (ok: bool)
      modifies this
      ensures ok && Contando() && Vacio()
      ensures offset == seq(MAX_NODES_LARGE + 1, _ => 0)
      ensures neighbors == [] && weights == [] && pos_x == [] && pos_y == [] && num_nodos == 0 && origenes == []
    {
      neighbors := [];
      weights := [];
      pos_x := [];
      pos_y := [];
      origenes := [];
      num_nodos := 0;
      offset := seq(MAX_NODES_LARGE + 1, _ => 0);
      ok := true;
    }

    /** Appends one edge and counts it for `origen`. */
    method AgregarArista(origen: int, destino: int, peso: int)
      requires Contando() && 0 <= origen < MAX_NODES_LARGE
      modifies this
      ensures Contando()
      ensures neighbors == old(neighbors) + [destino] && weights == old(weights) + [peso]
      ensures offset == old(offset)[origen + 1 := old(offset)[origen + 1] + 1]
      ensures origenes == old(origenes) + [origen]
      ensures pos_x == old(pos_x) && pos_y == old(pos_y) && num_nodos == old(num_nodos)
    {
      AgregarOrigen(origenes, origen);
      neighbors := neighbors + [destino];
      weights := weights + [peso];
      offset := offset[origen + 1 := offset[origen + 1] + 1];
      origenes := origenes + [origen];
    }

    method AgregarPosicion(x: int, y: int)
      modifies this
      ensures pos_x == old(pos_x) + [x] && pos_y == old(pos_y) + [y]
      ensures offset == old(offset) && neighbors == old(neighbors) && weights == old(weights)
      ensures num_nodos == old(num_nodos) && origenes == old(origenes)
    {
      pos_x := pos_x + [x];
      pos_y := pos_y + [y];
    }

    /** Turns the counters into offsets with an in-place prefix sum. */
    method FinalizarConstruccion()
      requires |offset| == MAX_NODES_LARGE + 1
      modifies this
      ensures |offset| == MAX_NODES_LARGE + 1
      ensures forall u :: 0 <= u <= MAX_NODES_LARGE ==> offset[u] == Acumulado(old(offset), u + 1)
      ensures neighbors == old(neighbors) && weights == old(weights) && origenes == old(origenes)
      ensures pos_x == old(pos_x) && pos_y == old(pos_y) && num_nodos == old(num_nodos)
    {
      ghost var c := offset;
      var i := 1;
      while i <= MAX_NODES_LARGE
        invariant 1 <= i <= MAX_NODES_LARGE + 1 && |offset| == MAX_NODES_LARGE + 1
        invariant forall u :: 0 <= u < i ==> offset[u] == Acumulado(c, u + 1)
        invariant forall u :: i <= u <= MAX_NODES_LARGE ==> offset[u] == c[u]
        invariant neighbors == old(neighbors) && weights == old(weights) && origenes == old(origenes)
        invariant pos_x == old(pos_x) && pos_y == old(pos_y) && num_nodos == old(num_nodos)
      {
        offset := offset[i := offset[i] + offset[i - 1]];
        i := i + 1;
      }
    }

    /** After counting, finalizing yields the offsets of the edges grouped by origin. */
    lemma FinalizadoDeContando(c: seq<int>)
      requires |c| == MAX_NODES_LARGE + 1 && c[0] == 0
      requires |origenes| == |neighbors| == |weights|
      requires forall k :: 0 <= k < |origenes| ==> 0 <= origenes[k] < MAX_NODES_LARGE
      requires forall u :: 0 <= u < MAX_NODES_LARGE ==> c[u + 1] == Cuenta(origenes, u)
      requires |offset| == MAX_NODES_LARGE + 1
      requires forall u :: 0 <= u <= MAX_NODES_LARGE ==> offset[u] == Acumulado(c, u + 1)
      ensures Finalizado()
    {
      forall u | 0 <= u <= MAX_NODES_LARGE
        ensures offset[u] == Menores(origenes, u)
      {
        AcumuladoDeCuentas(c, origenes, u);
      }
    }

    /** The finalized offsets: they start at 0, never decrease, end at the number of edges,
        and, when the edges were added in non-decreasing origin order, node `u`'s slice holds
        exactly the edges added from `u`. */
    lemma OffsetsFinales()
      requires Finalizado()
      ensures offset[0] == 0
      ensures forall u, w :: 0 <= u <= w <= MAX_NODES_LARGE ==> offset[u] <= offset[w]
      ensures offset[MAX_NODES_LARGE] == |neighbors|
      ensures Ordenados(origenes) ==>
                forall u, k :: 0 <= u < MAX_NODES_LARGE && 0 <= k < |neighbors| ==>
                  (offset[u] <= k < offset[u + 1] <==> origenes[k] == u)
    {
      MenoresCero(origenes);
      forall u, w | 0 <= u <= w <= MAX_NODES_LARGE
        ensures offset[u] <= offset[w]
      {
        MenoresMonotono(origenes, u, w);
      }
      if Ordenados(origenes) {
        forall u, k | 0 <= u < MAX_NODES_LARGE && 0 <= k < |neighbors|
          ensures offset[u] <= k < offset[u + 1] <==> origenes[k] == u
        {
          TramoOrdenado(origenes, u, k);
        }
      }
    }

    function ContarAristas(): (r: int)
      reads this
      requires Finalizado()
      ensures r == offset[MAX_NODES_LARGE]
    {
      |neighbors|
    }

    /** Bytes held by the five arrays. */
    function MemoriaUsada(): (m: int)
      reads this
      ensures m >= 0
      ensures Finalizado() && |pos_x| == |pos_y| ==>
                m == SIZEOF_INT * (MAX_NODES_LARGE + 1) + (SIZEOF_INT + SIZEOF_FLOAT) * offset[MAX_NODES_LARGE]
                     + 2 * SIZEOF_FLOAT * |pos_x|
    {
      |offset| * SIZEOF_INT + |neighbors| * SIZEOF_INT + |weights| * SIZEOF_FLOAT
      + |pos_x| * SIZEOF_FLOAT + |pos_y| * SIZEOF_FLOAT
    }

    function GetOffsetInicio(nodo: int): (r: int)
      reads this
      requires 0 <= nodo < |offset|
    {
      offset[nodo]
    }

    function GetOffsetFin(nodo: int): (r: int)
      reads this
      requires 0 <= nodo + 1 < |offset|
    {
      offset[nodo + 1]
    }

    function GetVecino(idx: int): (r: int)
      reads this
      requires 0 <= idx < |neighbors|
    {
      neighbors[idx]
    }

    function GetPeso(idx: int): (r: int)
      reads this
      requires 0 <= idx < |weights|
    {
      weights[idx]
    }

    function GetPosX(nodo: int): (r: int)
      reads this
      requires 0 <= nodo < |pos_x|
    {
      pos_x[nodo]
    }

    function GetPosY(nodo: int): (r: int)
      reads this
      requires 0 <= nodo < |pos_y|
    {
      pos_y[nodo]
    }

    function GetNumNodosReales(): (r: int)
      reads this
    {
      num_nodos
    }

    /** The getters read node `u`'s slice: `v` is a neighbour of `u` exactly when some index
        between `GetOffsetInicio(u)` and `GetOffsetFin(u)` holds `v`, and `GetVecino(i)` and
        `GetPeso(i)` read the same edge. */
    lemma Getters(u: int, v: int)
      requires Listo() && 0 <= u < GetNumNodosReales()
      ensures 0 <= GetOffsetInicio(u) <= GetOffsetFin(u) <= |neighbors| == |weights|
      ensures Arista(Vista(), u, v) <==>
                exists i :: GetOffsetInicio(u) <= i < GetOffsetFin(u) && GetVecino(i) == v
      ensures GetNumNodosReales() <= MAX_NODES_LARGE
    {
      TramoDe(Vista(), u);
      if i :| GetOffsetInicio(u) <= i < GetOffsetFin(u) && GetVecino(i) == v {
        assert Vista().vecinos[i] == v;
      }
      if Arista(Vista(), u, v) {
        var i :| offset[u] <= i < offset[u + 1] && 0 <= i < |neighbors| && neighbors[i] == v;
        assert GetVecino(i) == v;
      }
    }
  }

  lemma {:induction false} MenoresMonotono(s: seq<int>, u: int, w: int)
    requires u <= w
    ensures Menores(s, u) <= Menores(s, w)
  {
    if s != [] {
      MenoresMonotono(s[..|s| - 1], u, w);
    }
  }

  /** `contar_aristas_grandes`: 0 when there is no graph. */
  function ContarAristasGrandes(grafo: GrafoGrande?): (r: int)
    reads grafo
    requires grafo != null ==> grafo.Finalizado()
    ensures grafo == null ==> r == 0
    ensures grafo != null ==> r == grafo.offset[MAX_NODES_LARGE]
  {
    if grafo == null then 0 else grafo.ContarAristas()
  }

  /** `obtener_num_nodos_reales`: 0 when there is no graph. */
  function ObtenerNumNodosReales(grafo: GrafoGrande?): (r: int)
    reads grafo
    ensures grafo == null ==> r == 0
    ensures grafo != null ==> r == grafo.num_nodos
  {
    if grafo == null then 0 else grafo.GetNumNodosReales()
  }
}
