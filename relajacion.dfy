/** The predecessor tree of the Dijkstra and A* variants whose relaxation does not look at
    `visitado` (`dijkstra_grande.cpp`, `dijkstra.cpp`, `a_estrella.cpp`): a node's
    predecessor can be replaced at any time, even after the node was expanded, so the
    visit order no longer ranks the tree.

    What ranks it instead is the tentative distance together with a ghost stamp recording
    when that distance was last lowered: with non-negative weights a predecessor always
    comes strictly before its child in (distance, stamp) order. */
module Relajacion {
  import opened Csr
  import opened Caminos
  import opened EstructurasGrandes

  /** A tentative distance: `Infinita` is the floating-point infinity
      `dijkstra_grande.cpp` starts from, larger than every finite value. */
  datatype Distancia = Infinita | Finita(valor: int)

  /** Floating-point addition of a finite weight: infinity absorbs it. */
  function Sumar(a: Distancia, peso: int): (r: Distancia)
    ensures r.Infinita? <==> a.Infinita?
    ensures r.Finita? ==> r.valor == a.valor + peso
  {
    match a
    case Infinita => Infinita
    case Finita(x) => Finita(x + peso)
  }

  /** Floating-point `<`: infinity is below nothing, every finite value is below infinity. */
  predicate Menor(a: Distancia, b: Distancia)
  {
    a.Finita? && (b.Infinita? || a.valor < b.valor)
  }

  /** Every entry of an integer array seen as a finite distance (the variants that start
      from the finite sentinel 1e9). */
  function Finitas(s: seq<int>): (r: seq<Distancia>)
    ensures |r| == |s|
    ensures forall v :: 0 <= v < |s| ==> r[v] == Finita(s[v])
  {
    seq(|s|, v requires 0 <= v < |s| => Finita(s[v]))
  }

  /** Changing one entry of the integer array changes one distance. */
  lemma FinitasActualizar(s: seq<int>, v: int, x: int)
    requires 0 <= v < |s|
    ensures Finitas(s[v := x]) == Finitas(s)[v := Finita(x)]
  {
  }

  /** (a, sa) comes strictly before (b, sb) in lexicographic order. */
  predicate Precede(a: int, sa: nat, b: int, sb: nat)
  {
    a < b || (a == b && sa < sb)
  }

  /** Node `v` under the stamp invariant: a finite distance is non-negative, the stamp is
      below the clock `t`, and a predecessor link joins two finite distances, the
      predecessor's strictly first in (distance, stamp) order. */
  ghost predicate Escalon(ant: seq<int>, d: seq<Distancia>, sello: seq<nat>, t: nat, v: int)
    requires |d| == |ant| && |sello| == |ant| && 0 <= v < |ant|
  {
    (d[v].Finita? ==> 0 <= d[v].valor) && sello[v] < t &&
    (ant[v] != -1 ==>
       && 0 <= ant[v] < |ant| && d[v].Finita? && d[ant[v]].Finita?
       && Precede(d[ant[v]].valor, sello[ant[v]], d[v].valor, sello[v]))
  }

  /** The stamp invariant for every node. */
  ghost predicate Escalonado(ant: seq<int>, d: seq<Distancia>, sello: seq<nat>, t: nat)
  {
    |d| == |ant| && |sello| == |ant| &&
    forall v :: 0 <= v < |ant| ==> Escalon(ant, d, sello, t, v)
  }

  /** No predecessors and non-negative distances: the state before the main loop. */
  lemma EscalonadoInicial(ant: seq<int>, d: seq<Distancia>)
    requires |d| == |ant|
    requires forall v :: 0 <= v < |ant| ==> ant[v] == -1 && (d[v].Finita? ==> 0 <= d[v].valor)
    ensures Escalonado(ant, d, seq(|ant|, _ => 0), 1)
  {
    var sello: seq<nat> := seq(|ant|, _ => 0);
    forall v | 0 <= v < |ant|
      ensures Escalon(ant, d, sello, 1, v)
    {
    }
  }

  /** Lowering `v`'s distance to `nueva`, no less than the finite distance of `u`, and
      making `u` its predecessor keeps the invariant when `v` gets the current clock as
      its stamp and the clock advances. */
  lemma Relajado(ant: seq<int>, d: seq<Distancia>, sello: seq<nat>, t: nat, u: int, v: int, nueva: int)
    requires Escalonado(ant, d, sello, t)
    requires 0 <= u < |ant| && 0 <= v < |ant| && d[u].Finita? && d[u].valor <= nueva
    requires Menor(Finita(nueva), d[v])
    ensures u != v
    ensures Escalonado(ant[v := u], d[v := Finita(nueva)], sello[v := t], t + 1)
  {
    assert Escalon(ant, d, sello, t, u);
    var ant2, d2, sello2, t2 := ant[v := u], d[v := Finita(nueva)], sello[v := t], t + 1;
    forall w | 0 <= w < |ant|
      ensures Escalon(ant2, d2, sello2, t2, w)
    {
      assert Escalon(ant, d, sello, t, w);
    }
  }

  /** (distance, stamp) pairs with stamps below `t` flattened into one natural number. */
  function Peso(a: int, sa: nat, t: nat): (r: nat)
    requires 0 <= a
  {
    a * (t + 1) + sa
  }

  /** A larger factor adds at least one more `k`. */
  lemma {:induction false} Escalera(a: int, b: int, k: nat)
    requires 0 <= a < b
    ensures a * k + k <= b * k
    decreases b - a
  {
    assert (a + 1) * k == a * k + k;
    if a + 1 < b {
      Escalera(a + 1, b, k);
    }
  }

  /** Flattening keeps the lexicographic order. */
  lemma PesoCreciente(a: int, sa: nat, b: int, sb: nat, t: nat)
    requires 0 <= a && 0 <= b && sa < t && sb < t && Precede(a, sa, b, sb)
    ensures Peso(a, sa, t) < Peso(b, sb, t)
  {
    if a < b {
      Escalera(a, b, t + 1);
    }
  }

  /** The rank the stamp invariant provides: the flattened (distance, stamp) pair. */
  ghost function RangoDistancia(d: seq<Distancia>, sello: seq<nat>, t: nat): (rank: seq<nat>)
    requires |sello| == |d|
    ensures |rank| == |d|
  {
    seq(|d|, v requires 0 <= v < |d| =>
          if d[v].Finita? && 0 <= d[v].valor then Peso(d[v].valor, sello[v], t) else 0)
  }

  /** Under the stamp invariant the rank strictly decreases along every predecessor link,
      so following predecessors terminates. */
  lemma RangoDistanciaDesciende(ant: seq<int>, d: seq<Distancia>, sello: seq<nat>, t: nat)
    requires Escalonado(ant, d, sello, t)
    ensures Descendente(ant, RangoDistancia(d, sello, t))
  {
    var rank := RangoDistancia(d, sello, t);
    forall v | 0 <= v < |ant| && ant[v] != -1
      ensures 0 <= ant[v] < |ant| && rank[ant[v]] < rank[v]
    {
      assert Escalon(ant, d, sello, t, v);
      var u := ant[v];
      assert Escalon(ant, d, sello, t, u);
      PesoCreciente(d[u].valor, sello[u], d[v].valor, sello[v], t);
    }
  }

  /** The loop state of the lazily relaxing searches: a predecessor tree rooted at the
      origin, the stamp invariant over the tentative distances `d`, the origin at distance
      0, and every heap entry naming an anchored node. */
  ghost predicate Perezoso(g: Grafo, origen: int, ant: seq<int>, d: seq<Distancia>, sello: seq<nat>, t: nat,
                           pq: multiset<NodoPrioridadGrande>)
  {
    && Arbol(g, ant, origen) && Escalonado(ant, d, sello, t) && d[origen] == Finita(0)
    && forall e :: e in pq ==> 0 <= e.id < |ant| && Anclado(ant, e.id, origen)
  }

  /** Right after the origin is inserted with key `k`: no predecessors, the origin at 0,
      every other distance infinite or a non-negative sentinel. */
  lemma PerezosoInicial(g: Grafo, origen: int, ant: seq<int>, d: seq<Distancia>, k: int)
    requires |ant| == g.n && 0 <= origen < g.n && |d| == |ant| && d[origen] == Finita(0)
    requires forall v :: 0 <= v < |ant| ==> ant[v] == -1 && (d[v].Finita? ==> 0 <= d[v].valor)
    ensures Perezoso(g, origen, ant, d, seq(|ant|, _ => 0), 1, multiset{NodoPrioridadGrande(origen, k)})
  {
    ArbolInicial(g, ant, origen);
    EscalonadoInicial(ant, d);
  }

  /** The extracted entry `e` names an anchored node, and the rest of the heap keeps the
      state. */
  lemma PerezosoExtraer(g: Grafo, origen: int, ant: seq<int>, d: seq<Distancia>, sello: seq<nat>, t: nat,
                        pq: multiset<NodoPrioridadGrande>, e: NodoPrioridadGrande)
    requires Perezoso(g, origen, ant, d, sello, t, pq) && e in pq
    ensures 0 <= e.id < |ant| && Anclado(ant, e.id, origen)
    ensures Perezoso(g, origen, ant, d, sello, t, pq - multiset{e})
  {
  }

  /** One successful relaxation along the edge `u -> v` out of the anchored `u`: `v` gets
      the strictly smaller distance `nueva`, `u` as predecessor, the current clock as stamp,
      and possibly a heap entry.  The state is kept and `u` stays anchored. */
  lemma PerezosoRelajar(g: Grafo, origen: int, ant: seq<int>, d: seq<Distancia>, sello: seq<nat>, t: nat,
                        pq: multiset<NodoPrioridadGrande>, u: int, v: int, nueva: int,
                        x: NodoPrioridadGrande, pq2: multiset<NodoPrioridadGrande>)
    requires Perezoso(g, origen, ant, d, sello, t, pq)
    requires 0 <= u < |ant| && Anclado(ant, u, origen) && Arista(g, u, v) && 0 <= v < |ant|
    requires d[u].Finita? && d[u].valor <= nueva && Menor(Finita(nueva), d[v])
    requires x.id == v && (pq2 == pq || pq2 == pq + multiset{x})
    ensures Perezoso(g, origen, ant[v := u], d[v := Finita(nueva)], sello[v := t], t + 1, pq2)
    ensures Anclado(ant[v := u], u, origen)
  {
    assert Escalon(ant, d, sello, t, u);
    Relajado(ant, d, sello, t, u, v, nueva);
    Enganchar(g, ant, origen, v, u);
  }

  /** The set-up shared by the lazily relaxing searches: nothing visited, no predecessors,
      and a fresh heap holding only the origin with key `k`. */
  method IniciarPerezoso(n: nat, origen: int, k: int)
    returns (visitado: array<bool>, anterior: array<int>, pq: ColaPrioridadGrande)
    requires 0 <= origen < n
    ensures fresh(visitado) && fresh(anterior) && fresh(pq) && fresh(pq.datos)
    ensures visitado.Length == n && anterior.Length == n && pq.Valid()
    ensures forall v :: 0 <= v < n ==> anterior[v] == -1 && !visitado[v]
    ensures pq.Contents() == multiset{NodoPrioridadGrande(origen, k)}
  {
    visitado := new bool[n](_ => false);
    anterior := NuevoAnterior(n);
    pq := new ColaPrioridadGrande(PQ_MAX_GRANDE);
    pq.Insertar(origen, k);
  }

  /** Records `actual` as the predecessor of `vecino` and inserts `vecino` with key `clave`
      (dropped when the heap is full), after the caller lowered `vecino`'s distance from
      `d[vecino]` to `nueva`: the state holds again for the lowered distances `d'`, with
      `vecino` stamped. */
  method EnlazarPerezoso(ghost g: Grafo, actual: int, vecino: int, ghost nueva: int, clave: int,
                         anterior: array<int>, pq: ColaPrioridadGrande, ghost origen: int,
                         ghost d: seq<Distancia>, ghost sello: seq<nat>, ghost t: nat)
    returns (ghost d': seq<Distancia>, ghost sello': seq<nat>, ghost t': nat)
    requires pq.Valid()
    requires Perezoso(g, origen, anterior[..], d, sello, t, pq.Contents())
    requires 0 <= actual < anterior.Length && Anclado(anterior[..], actual, origen)
    requires Arista(g, actual, vecino) && 0 <= vecino < anterior.Length
    requires d[actual].Finita? && d[actual].valor <= nueva && Menor(Finita(nueva), d[vecino])
    modifies anterior, pq, pq.datos
    ensures pq.Valid()
    ensures d' == d[vecino := Finita(nueva)] && sello' == sello[vecino := t] && t' == t + 1
    ensures Perezoso(g, origen, anterior[..], d', sello', t', pq.Contents())
    ensures Anclado(anterior[..], actual, origen)
    ensures anterior[..] == old(anterior[..])[vecino := actual]
  {
    ghost var antes := pq.Contents();
    ghost var ant0 := anterior[..];
    anterior[vecino] := actual;
    pq.Insertar(vecino, clave);
    assert anterior[..] == ant0[vecino := actual];
    PerezosoRelajar(g, origen, ant0, d, sello, t, antes, actual, vecino, nueva,
                    NodoPrioridadGrande(vecino, clave), pq.Contents());
    d', sello', t' := d[vecino := Finita(nueva)], sello[vecino := t], t + 1;
  }

  /** The head of every iteration of the lazily relaxing searches: extract the minimum
      entry, whose node is anchored, and mark it visited unless it already was.  Either one
      node fewer is left unvisited, or nothing is marked and the heap shrank; while only
      origin entries are left and the origin is unvisited, the origin is the node marked. */
  method ExtraerVisitar(ghost g: Grafo, ghost origen: int, visitado: array<bool>, pq: ColaPrioridadGrande,
                        ghost ant: seq<int>, ghost d: seq<Distancia>, ghost sello: seq<nat>, ghost t: nat)
    returns (actual: int, nuevo: bool)
    requires pq.Valid() && !pq.Vacia() && visitado.Length == |ant|
    requires Perezoso(g, origen, ant, d, sello, t, pq.Contents())
    modifies visitado, pq, pq.datos
    ensures pq.Valid() && Perezoso(g, origen, ant, d, sello, t, pq.Contents())
    ensures 0 <= actual < |ant| && Anclado(ant, actual, origen)
    ensures nuevo == old(!visitado[actual])
    ensures nuevo ==> visitado[..] == old(visitado[..])[actual := true] &&
                      Libres(visitado[..]) < old(Libres(visitado[..]))
    ensures !nuevo ==> visitado[..] == old(visitado[..]) && |pq.Contents()| < old(|pq.Contents()|)
    ensures (forall e :: e in old(pq.Contents()) ==> e.id == origen) ==> actual == origen
  {
    ghost var antes := pq.Contents();
    ghost var e;
    actual, e := pq.ExtraerMin();
    PerezosoExtraer(g, origen, ant, d, sello, t, antes, e);
    if visitado[actual] {
      return actual, false;
    }
    ghost var vis0 := visitado[..];
    visitado[actual] := true;
    assert visitado[..] == vis0[actual := true];
    Visitar(vis0, actual);
    nuevo := true;
  }
}
