/** The five searches over the large graph.  Each one returns no path (`largo == 0`) when
    there is no graph or when `origen` or `destino` is not a node below `num_nodos`, and
    reconstructs a path only when it has reached the destination: an unreachable destination
    yields `largo == 0`, never a one-node path. */
module AlgoritmosGrandes {
  import opened Csr
  import opened Caminos
  import opened EstructurasGrandes
  import opened GrafoGrande

  /** Both endpoints are nodes of the graph. */
  predicate EnRango(grafo: GrafoGrande, origen: int, destino: int)
    reads grafo
  {
    0 <= origen < grafo.num_nodos && 0 <= destino < grafo.num_nodos
  }

  /** The 1e9 sentinel the Dijkstra and A* searches use for "no distance yet". */
  const INFINITO: int := 1_000_000_000

  /** Every node of `s` is in range and anchored to the origin. */
  ghost predicate Anclados(ant: seq<int>, origen: int, s: seq<int>)
  {
    forall k :: 0 <= k < |s| ==> 0 <= s[k] < |ant| && Anclado(ant, s[k], origen)
  }

  // ---------------------------------------------------------------------------------------
  // BFS

  /** The BFS loop state: a visit-ordered predecessor tree with the origin visited, only
      visited (that is, already enqueued) nodes in the queue, and no more queued nodes than
      visited ones. */
  ghost predicate EstadoBFS(g: Grafo, origen: int, vis: seq<bool>, ant: seq<int>, cola: seq<int>,
                            orden: seq<nat>, cnt: nat)
  {
    && Recorrido(g, ant, vis, orden, cnt, origen) && vis[origen]
    && (forall k :: 0 <= k < |cola| ==> 0 <= cola[k] < |vis| && vis[cola[k]])
    && Libres(vis) + |cola| <= g.n
  }

  /** What makes the BFS complete while its queue never drops a value: every visited node
      is queued, open (`abiertos`) or has all its neighbours visited, and a visited
      destination is still queued or open. */
  ghost predicate CompletoBFS(g: Grafo, destino: int, vis: seq<bool>, cola: seq<int>, abiertos: set<int>)
  {
    && Frontera(g, vis, {}, Elementos(cola) + abiertos)
    && 0 <= destino < |vis| && (vis[destino] ==> destino in Elementos(cola) + abiertos)
  }

  /** Enqueueing the unvisited `v` from the visited `u` keeps the BFS state, whether or not
      the queue had room for it; when it had, completeness is kept too. */
  lemma MarcarBFS(g: Grafo, origen: int, destino: int, vis: seq<bool>, ant: seq<int>, cola: seq<int>,
                  orden: seq<nat>, cnt: nat, u: int, v: int, cola2: seq<int>, abiertos: set<int>)
    requires EstadoBFS(g, origen, vis, ant, cola, orden, cnt)
    requires 0 <= u < |vis| && vis[u] && Arista(g, u, v) && 0 <= v < |vis| && !vis[v]
    requires cola2 == cola || cola2 == cola + [v]
    ensures EstadoBFS(g, origen, vis[v := true], ant[v := u], cola2, orden[v := cnt], cnt + 1)
    ensures Libres(vis[v := true]) == Libres(vis) - 1
    ensures cola2 == cola + [v] && CompletoBFS(g, destino, vis, cola, abiertos) ==>
              CompletoBFS(g, destino, vis[v := true], cola2, abiertos)
  {
    RecorridoEnlazar(g, ant, vis, orden, cnt, origen, u, v);
    RecorridoVisitar(g, ant[v := u], vis, orden, cnt, origen, v);
    ElementosPartes(cola, v);
    if cola2 == cola + [v] && CompletoBFS(g, destino, vis, cola, abiertos) {
      Ampliar(g, vis, {}, Elementos(cola) + abiertos, vis[v := true], {}, Elementos(cola2) + abiertos);
    }
  }

  /** One step of the inner loop of `buscar_BFS_grande` on an unvisited neighbour: it is
      enqueued (if the ring has room), marked visited and given `actual` as predecessor.
      The ring always has room when the graph has fewer nodes than its capacity. */
  method DescubrirBFS(ghost g: Grafo, actual: int, vecino: int, visitado: array<bool>,
                      anterior: array<int>, cola: ColaGrande, ghost origen: int, ghost destino: int,
                      ghost orden: seq<nat>, ghost cnt: nat, ghost abiertos: set<int>)
    returns (ghost orden': seq<nat>, ghost cnt': nat)
    requires cola.Valid() && cola.datos != anterior
    requires EstadoBFS(g, origen, visitado[..], anterior[..], cola.Contents(), orden, cnt)
    requires 0 <= actual < visitado.Length && visitado[actual] && Arista(g, actual, vecino)
    requires 0 <= vecino < visitado.Length && !visitado[vecino]
    modifies visitado, anterior, cola, cola.datos
    ensures cola.Valid()
    ensures EstadoBFS(g, origen, visitado[..], anterior[..], cola.Contents(), orden', cnt')
    ensures visitado[..] == old(visitado[..])[vecino := true]
    ensures anterior[..] == old(anterior[..])[vecino := actual]
    ensures Libres(visitado[..]) + |cola.Contents()| <= old(Libres(visitado[..]) + |cola.Contents()|)
    ensures Elementos(old(cola.Contents())) <= Elementos(cola.Contents())
    ensures g.n < cola.capacidad ==> cola.Contents() == old(cola.Contents()) + [vecino]
    ensures g.n < cola.capacidad && CompletoBFS(g, destino, old(visitado[..]), old(cola.Contents()), abiertos) ==>
              CompletoBFS(g, destino, visitado[..], cola.Contents(), abiertos)
  {
    ghost var antes := cola.Contents();
    ghost var vis0 := visitado[..];
    ghost var ant0 := anterior[..];
    Visitar(vis0, vecino);
    cola.Encolar(vecino);
    assert visitado[..] == vis0 && anterior[..] == ant0;
    MarcarBFS(g, origen, destino, vis0, ant0, antes, orden, cnt, actual, vecino, cola.Contents(), abiertos);
    ElementosPartes(antes, vecino);
    visitado[vecino] := true;
    anterior[vecino] := actual;
    assert visitado[..] == vis0[vecino := true];
    assert anterior[..] == ant0[vecino := actual];
    orden', cnt' := orden[vecino := cnt], cnt + 1;
  }

  /** The inner loop of `buscar_BFS_grande`: every unvisited neighbour of `actual` is
      enqueued, marked visited and given `actual` as predecessor; afterwards every
      neighbour of `actual` is visited, so `actual` is no longer open. */
  method ExpandirBFS(g: Grafo, actual: int, visitado: array<bool>, anterior: array<int>,
                     cola: ColaGrande, ghost origen: int, ghost destino: int,
                     ghost orden: seq<nat>, ghost cnt: nat)
    returns (ghost orden': seq<nat>, ghost cnt': nat)
    requires BienFormado(g) && 0 <= actual < g.n
    requires cola.Valid() && cola.datos != anterior
    requires EstadoBFS(g, origen, visitado[..], anterior[..], cola.Contents(), orden, cnt)
    requires visitado[actual]
    modifies visitado, anterior, cola, cola.datos
    ensures cola.Valid()
    ensures EstadoBFS(g, origen, visitado[..], anterior[..], cola.Contents(), orden', cnt')
    ensures Libres(visitado[..]) + |cola.Contents()| <= old(Libres(visitado[..]) + |cola.Contents()|)
    ensures Expandido(g, actual, visitado[..], {})
    ensures g.n < cola.capacidad && actual != destino &&
            CompletoBFS(g, destino, old(visitado[..]), old(cola.Contents()), {actual}) ==>
              CompletoBFS(g, destino, visitado[..], cola.Contents(), {})
  {
    ghost var medida := Libres(visitado[..]) + |cola.Contents()|;
    ghost var completo := g.n < cola.capacidad && CompletoBFS(g, destino, visitado[..], cola.Contents(), {actual});
    TramoDe(g, actual);
    orden', cnt' := orden, cnt;
    var inicio := g.offset[actual];
    var fin := g.offset[actual + 1];
    for i := inicio to fin
      invariant cola.Valid() && visitado[actual]
      invariant EstadoBFS(g, origen, visitado[..], anterior[..], cola.Contents(), orden', cnt')
      invariant Libres(visitado[..]) + |cola.Contents()| <= medida
      invariant Cubiertos(g, inicio, i, visitado[..], {})
      invariant completo ==> CompletoBFS(g, destino, visitado[..], cola.Contents(), {actual})
    {
      var vecino := g.vecinos[i];
      AristaEn(g, actual, i);
      ghost var vis0 := visitado[..];
      if !visitado[vecino] {
        orden', cnt' := DescubrirBFS(g, actual, vecino, visitado, anterior, cola, origen, destino,
                                     orden', cnt', {actual});
      }
      Cubrir(g, inicio, i, vis0, {}, visitado[..], {});
    }
    if completo && actual != destino {
      CerrarBFS(g, destino, visitado[..], cola.Contents(), actual);
    }
  }

  /** Once the open `actual`, which is not the destination, has all its neighbours
      visited, it is no longer open. */
  lemma CerrarBFS(g: Grafo, destino: int, vis: seq<bool>, cola: seq<int>, actual: int)
    requires CompletoBFS(g, destino, vis, cola, {actual}) && Expandido(g, actual, vis, {})
    requires actual != destino
    ensures CompletoBFS(g, destino, vis, cola, {})
  {
    assert Elementos(cola) + {} == Elementos(cola);
    Cerrar(g, vis, {}, Elementos(cola), actual);
  }

  /** The state right after the origin is enqueued and marked. */
  lemma EstadoInicialBFS(g: Grafo, origen: int, destino: int, vis: seq<bool>, ant: seq<int>, orden: seq<nat>)
    requires |ant| == g.n && 0 <= origen < g.n && |vis| == |ant| && |orden| == |ant|
    requires 0 <= destino < g.n
    requires forall v :: 0 <= v < |ant| ==> ant[v] == -1 && !vis[v]
    ensures EstadoBFS(g, origen, vis[origen := true], ant, [origen], orden[origen := 0], 1)
    ensures CompletoBFS(g, destino, vis[origen := true], [origen], {})
  {
    RecorridoInicial(g, ant, vis, orden, origen);
    RecorridoVisitar(g, ant, vis, orden, 0, origen, origen);
    ElementosPartes([], origen);
    assert [] + [origen] == [origen];
  }

  /** Taking the first element off a complete queue leaves it complete with that element
      open, unless it is the destination. */
  lemma DesencolarBFS(g: Grafo, destino: int, vis: seq<bool>, cola: seq<int>)
    requires CompletoBFS(g, destino, vis, cola, {}) && |cola| > 0 && cola[0] != destino
    ensures CompletoBFS(g, destino, vis, cola[1..], {cola[0]})
  {
    ElementosPartes(cola, 0);
    Ampliar(g, vis, {}, Elementos(cola), vis, {}, Elementos(cola[1..]) + {cola[0]});
  }

  /** The main loop of `buscar_BFS_grande`: dequeue, stop on the destination, otherwise
      expand.  A found destination has been visited; when origin and destination coincide
      the search always finds it; and while the queue never overflows, a search that ends
      without finding the destination has visited every node reachable from the origin
      and not the destination. */
  method BucleBFS(g: Grafo, origen: int, destino: int, visitado: array<bool>,
                  anterior: array<int>, cola: ColaGrande, ghost orden: seq<nat>, ghost cnt: nat)
    returns (encontrado: bool, ghost orden': seq<nat>, ghost cnt': nat)
    requires BienFormado(g) && 0 <= destino < g.n
    requires cola.Valid() && cola.datos != anterior
    requires EstadoBFS(g, origen, visitado[..], anterior[..], cola.Contents(), orden, cnt)
    requires origen == destino ==> cola.Contents() == [origen]
    requires g.n < cola.capacidad ==> CompletoBFS(g, destino, visitado[..], cola.Contents(), {})
    modifies visitado, anterior, cola, cola.datos
    ensures cola.Valid()
    ensures EstadoBFS(g, origen, visitado[..], anterior[..], cola.Contents(), orden', cnt')
    ensures encontrado ==> visitado[destino]
    ensures origen == destino ==> encontrado
    ensures g.n < cola.capacidad && !encontrado ==>
              Frontera(g, visitado[..], {}, {}) && !visitado[destino]
  {
    orden', cnt' := orden, cnt;
    encontrado := false;
    ghost var holgura := g.n < cola.capacidad;
    while !cola.Vacia() && !encontrado
      invariant cola.Valid() && visitado.Length == g.n
      invariant EstadoBFS(g, origen, visitado[..], anterior[..], cola.Contents(), orden', cnt')
      invariant origen == destino ==> cola.Contents() == [origen] && !encontrado
      invariant holgura && !encontrado ==> CompletoBFS(g, destino, visitado[..], cola.Contents(), {})
      decreases Libres(visitado[..]) + |cola.Contents()|
    {
      ghost var antes := cola.Contents();
      var actual := cola.Desencolar();
      if actual == destino {
        encontrado := true;
        return;
      }
      if holgura {
        DesencolarBFS(g, destino, visitado[..], antes);
      }
      orden', cnt' := ExpandirBFS(g, actual, visitado, anterior, cola, origen, destino, orden', cnt');
    }
    if holgura && !encontrado {
      assert Elementos(cola.Contents()) == {};
    }
  }

  /** The set-up of `buscar_BFS_grande`: only the origin visited and enqueued, and no
      predecessors. */
  method IniciarBFS(g: Grafo, origen: int, ghost destino: int)
    returns (visitado: array<bool>, anterior: array<int>, cola: ColaGrande, ghost orden: seq<nat>)
    requires 0 <= origen < g.n && 0 <= destino < g.n
    ensures fresh(visitado) && fresh(anterior) && fresh(cola) && fresh(cola.datos)
    ensures visitado.Length == g.n && cola.Valid() && cola.datos != anterior
    ensures EstadoBFS(g, origen, visitado[..], anterior[..], cola.Contents(), orden, 1)
    ensures cola.Contents() == [origen] && cola.capacidad == TAM_MAX_GRANDE
    ensures CompletoBFS(g, destino, visitado[..], cola.Contents(), {})
  {
    visitado := new bool[g.n](_ => false);
    anterior := NuevoAnterior(g.n);
    orden := seq(g.n, _ => 0);
    cola := new ColaGrande(TAM_MAX_GRANDE);
    cola.Encolar(origen);
    EstadoInicialBFS(g, origen, destino, visitado[..], anterior[..], orden);
    ghost var vis0 := visitado[..];
    visitado[origen] := true;
    assert visitado[..] == vis0[origen := true];
    orden := orden[origen := 0];
  }

  /** `buscar_BFS_grande` once the graph is present and both endpoints are in range: a FIFO
      search that marks nodes when they are enqueued and stops as soon as the destination
      is dequeued; the path is rebuilt only when the destination was reached.  While the
      graph has fewer nodes than the ring's capacity the ring never drops a node, and a
      path is returned exactly when the destination is reachable. */
  method BFSGrande(g: Grafo, origen: int, destino: int, camino: array<int>) returns (largo: int)
    requires BienFormado(g) && 0 <= origen < g.n && 0 <= destino < g.n && camino.Length >= g.n
    modifies camino
    ensures 0 <= largo <= g.n
    ensures largo > 0 ==> CaminoDe(g, camino[..largo], origen, destino) && SinRepetir(camino[..largo])
    ensures origen == destino ==> camino[..largo] == [origen]
    ensures g.n < TAM_MAX_GRANDE ==> (largo > 0 <==> Alcanzable(g, origen, destino))
  {
    var visitado, anterior, cola, orden := IniciarBFS(g, origen, destino);
    var encontrado;
    ghost var cnt: nat;
    encontrado, orden, cnt := BucleBFS(g, origen, destino, visitado, anterior, cola, orden, 1);

    largo := 0;
    if encontrado {
      RecorridoRango(g, anterior[..], visitado[..], orden, cnt, origen, destino);
      largo := ReconstruirRecorrido(g, anterior, visitado[..], orden, cnt, origen, destino, camino);
    } else if g.n < TAM_MAX_GRANDE {
      Inalcanzable(g, visitado[..], origen, destino);
    }
  }

  /** `buscar_BFS_grande`: no path without a graph or with an endpoint out of range. */
  method BuscarBFSGrande(grafo: GrafoGrande?, origen: int, destino: int, camino: array<int>)
    returns (largo: int)
    requires grafo != null ==> grafo.Listo() && camino.Length >= grafo.num_nodos
    modifies camino
    ensures 0 <= largo <= camino.Length
    ensures grafo == null || !EnRango(grafo, origen, destino) ==> largo == 0 && camino[..] == old(camino[..])
    ensures largo > 0 ==>
              grafo != null && CaminoDe(grafo.Vista(), camino[..largo], origen, destino) &&
              SinRepetir(camino[..largo])
    ensures grafo != null && EnRango(grafo, origen, destino) && origen == destino ==>
              camino[..largo] == [origen]
    ensures grafo != null && EnRango(grafo, origen, destino) && grafo.num_nodos < TAM_MAX_GRANDE ==>
              (largo > 0 <==> Alcanzable(grafo.Vista(), origen, destino))
  {
    if grafo == null {
      return 0;
    }
    var num_nodos := grafo.GetNumNodosReales();
    if origen < 0 || origen >= num_nodos || destino < 0 || destino >= num_nodos {
      return 0;
    }
    largo := BFSGrande(grafo.Vista(), origen, destino, camino);
  }

  // ---------------------------------------------------------------------------------------
  // DFS

  /** The DFS loop state: a visit-ordered predecessor tree, every stacked node anchored, and
      the origin visited unless it is still the only stacked node. */
  ghost predicate EstadoDFS(g: Grafo, origen: int, vis: seq<bool>, ant: seq<int>, pila: seq<int>,
                            orden: seq<nat>, cnt: nat)
  {
    && Recorrido(g, ant, vis, orden, cnt, origen)
    && (vis[origen] || pila == [origen])
    && Anclados(ant, origen, pila)
  }

  /** Pushing the unvisited `v` found from the visited `u`, and linking it to `u` when it
      had no predecessor yet, keeps the DFS state whether or not the stack had room. */
  lemma ApilarDFS(g: Grafo, origen: int, vis: seq<bool>, ant: seq<int>, pila: seq<int>,
                  orden: seq<nat>, cnt: nat, u: int, v: int, pila2: seq<int>)
    requires EstadoDFS(g, origen, vis, ant, pila, orden, cnt) && vis[origen]
    requires 0 <= u < |vis| && vis[u] && Arista(g, u, v) && 0 <= v < |vis| && !vis[v]
    requires pila2 == pila || pila2 == pila + [v]
    ensures ant[v] == -1 ==> EstadoDFS(g, origen, vis, ant[v := u], pila2, orden, cnt)
    ensures ant[v] != -1 ==> EstadoDFS(g, origen, vis, ant, pila2, orden, cnt)
  {
    if ant[v] == -1 {
      RecorridoEnlazar(g, ant, vis, orden, cnt, origen, u, v);
    }
  }

  /** Popping the top `v` of the stack: a visited `v` is dropped, an unvisited one is
      visited, with one node fewer left to visit. */
  lemma DesapilarDFS(g: Grafo, origen: int, vis: seq<bool>, ant: seq<int>, pila: seq<int>,
                     orden: seq<nat>, cnt: nat)
    requires EstadoDFS(g, origen, vis, ant, pila, orden, cnt) && pila != []
    ensures 0 <= pila[|pila| - 1] < |vis|
    ensures vis[pila[|pila| - 1]] ==> EstadoDFS(g, origen, vis, ant, pila[..|pila| - 1], orden, cnt)
    ensures !vis[pila[|pila| - 1]] ==>
              var v := pila[|pila| - 1];
              && EstadoDFS(g, origen, vis[v := true], ant, pila[..|pila| - 1], orden[v := cnt], cnt + 1)
              && Libres(vis[v := true]) < Libres(vis)
  {
    var v := pila[|pila| - 1];
    if !vis[v] {
      RecorridoVisitar(g, ant, vis, orden, cnt, origen, v);
    }
  }

  /** The container bound of the DFS and the heap searches: a node adds at most its
      out-degree of entries, once, when it is visited, so the `ocupados` entries, plus a
      `reserva` still to come, never exceed one more than the edges left in unvisited
      slices. */
  ghost predicate Cota(g: Grafo, vis: seq<bool>, ocupados: int, reserva: int)
  {
    BienFormado(g) && |vis| == g.n && ocupados + SalidasLibres(g, vis) + reserva <= |g.vecinos| + 1
  }

  /** What makes the DFS and Best-First searches complete while their container never
      drops a value: every visited node but the open ones has each neighbour visited or
      pending in `pend`, and the destination, which would have ended the search, is
      unvisited. */
  ghost predicate Completo(g: Grafo, destino: int, vis: seq<bool>, pend: set<int>, abiertos: set<int>)
  {
    Frontera(g, vis, pend, abiertos) && 0 <= destino < |vis| && !vis[destino]
  }

  /** One more neighbour of the open `actual` visited or pending, with nothing pending
      lost: the search stays complete and the covered range of the slice grows by one. */
  lemma CompletoCubrir(g: Grafo, destino: int, vis: seq<bool>, pend: set<int>, pend2: set<int>,
                       actual: int, inicio: int, i: int)
    requires Completo(g, destino, vis, pend, {actual}) && Cubiertos(g, inicio, i, vis, pend)
    requires pend <= pend2 && 0 <= i < |g.vecinos| && 0 <= g.vecinos[i] < |vis|
    requires vis[g.vecinos[i]] || g.vecinos[i] in pend2
    ensures Completo(g, destino, vis, pend2, {actual}) && Cubiertos(g, inicio, i + 1, vis, pend2)
  {
    Ampliar(g, vis, pend, {actual}, vis, pend2, {actual});
    Cubrir(g, inicio, i, vis, pend, vis, pend2);
  }

  /** Before anything is visited, one entry is stored and the search is complete. */
  lemma CompletoInicial(g: Grafo, destino: int, vis: seq<bool>, pend: set<int>)
    requires BienFormado(g) && |vis| == g.n && 0 <= destino < g.n
    requires forall v :: 0 <= v < |vis| ==> !vis[v]
    ensures Cota(g, vis, 1, 0) && Completo(g, destino, vis, pend, {})
  {
    SalidasAcotadas(g, vis);
  }

  /** Popping the top `v` of a complete stack: a visited `v` was already expanded, so the
      rest stays complete; an unvisited one that is not the destination is visited and
      left open. */
  lemma DesapilarCompleto(g: Grafo, destino: int, vis: seq<bool>, pila: seq<int>)
    requires Completo(g, destino, vis, Elementos(pila), {}) && |pila| > 0
    requires 0 <= pila[|pila| - 1] < |vis|
    ensures var v := pila[|pila| - 1];
            vis[v] ==> Completo(g, destino, vis, Elementos(pila[..|pila| - 1]), {})
    ensures var v := pila[|pila| - 1];
            !vis[v] && v != destino ==> Completo(g, destino, vis[v := true], Elementos(pila[..|pila| - 1]), {v})
  {
    var v := pila[|pila| - 1];
    ElementosPartes(pila, v);
    if vis[v] {
      Ampliar(g, vis, Elementos(pila), {}, vis, Elementos(pila[..|pila| - 1]), {});
    } else if v != destino {
      Ampliar(g, vis, Elementos(pila), {}, vis[v := true], Elementos(pila[..|pila| - 1]), {v});
    }
  }

  /** The state right after the origin is pushed. */
  lemma EstadoInicialDFS(g: Grafo, origen: int, vis: seq<bool>, ant: seq<int>, orden: seq<nat>)
    requires |ant| == g.n && 0 <= origen < g.n && |vis| == |ant| && |orden| == |ant|
    requires forall v :: 0 <= v < |ant| ==> ant[v] == -1 && !vis[v]
    ensures EstadoDFS(g, origen, vis, ant, [origen], orden, 0) && !vis[origen]
  {
    RecorridoInicial(g, ant, vis, orden, origen);
  }

  /** One neighbour in the inner loop of `buscar_DFS_grande`: an unvisited neighbour is
      pushed unless the stack is full, and takes `actual` as predecessor only if it had
      none. */
  method DescubrirDFS(ghost g: Grafo, actual: int, vecino: int, visitado: array<bool>,
                      anterior: array<int>, pila: StackGrande,
                      ghost origen: int, ghost orden: seq<nat>, ghost cnt: nat)
    requires pila.Valid() && pila.datos != anterior
    requires EstadoDFS(g, origen, visitado[..], anterior[..], pila.Contents(), orden, cnt)
    requires visitado.Length == g.n && visitado[origen]
    requires 0 <= actual < visitado.Length && visitado[actual] && Arista(g, actual, vecino)
    requires 0 <= vecino < visitado.Length && !visitado[vecino]
    modifies anterior, pila, pila.datos
    ensures pila.Valid()
    ensures EstadoDFS(g, origen, visitado[..], anterior[..], pila.Contents(), orden, cnt)
    ensures old(anterior[vecino]) == -1 ==> anterior[..] == old(anterior[..])[vecino := actual]
    ensures old(anterior[vecino]) != -1 ==> anterior[..] == old(anterior[..])
    ensures |old(pila.Contents())| < pila.capacidad ==> pila.Contents() == old(pila.Contents()) + [vecino]
    ensures |old(pila.Contents())| >= pila.capacidad ==> pila.Contents() == old(pila.Contents())
  {
    ghost var antes := pila.Contents();
    ghost var ant0 := anterior[..];
    pila.Apilar(vecino);
    assert anterior[..] == ant0;
    ApilarDFS(g, origen, visitado[..], ant0, antes, orden, cnt, actual, vecino, pila.Contents());
    if anterior[vecino] == -1 {
      anterior[vecino] := actual;
      assert anterior[..] == ant0[vecino := actual];
    }
  }

  /** The inner loop of `buscar_DFS_grande`: every unvisited neighbour of `actual` is
      pushed; nothing is marked visited here.  The stack bound guarantees room for every
      push while the stack can hold all the edges. */
  method ExpandirDFS(g: Grafo, actual: int, destino: int, visitado: array<bool>, anterior: array<int>,
                     pila: StackGrande, ghost origen: int, ghost orden: seq<nat>, ghost cnt: nat)
    requires BienFormado(g) && 0 <= actual < g.n
    requires pila.Valid() && pila.datos != anterior
    requires EstadoDFS(g, origen, visitado[..], anterior[..], pila.Contents(), orden, cnt)
    requires visitado.Length == g.n && visitado[origen] && visitado[actual]
    requires Cota(g, visitado[..], |pila.Contents()|, 1 + g.offset[actual + 1] - g.offset[actual])
    modifies anterior, pila, pila.datos
    ensures pila.Valid()
    ensures EstadoDFS(g, origen, visitado[..], anterior[..], pila.Contents(), orden, cnt)
    ensures Cota(g, visitado[..], |pila.Contents()|, 1)
    ensures |g.vecinos| <= pila.capacidad &&
            Completo(g, destino, visitado[..], Elementos(old(pila.Contents())), {actual}) ==>
              Completo(g, destino, visitado[..], Elementos(pila.Contents()), {})
  {
    TramoDe(g, actual);
    ghost var completo := |g.vecinos| <= pila.capacidad &&
                          Completo(g, destino, visitado[..], Elementos(pila.Contents()), {actual});
    var inicio := g.offset[actual];
    var fin := g.offset[actual + 1];
    for i := inicio to fin
      invariant pila.Valid()
      invariant EstadoDFS(g, origen, visitado[..], anterior[..], pila.Contents(), orden, cnt)
      invariant Cota(g, visitado[..], |pila.Contents()|, 1 + fin - i)
      invariant completo ==>
                  && Completo(g, destino, visitado[..], Elementos(pila.Contents()), {actual})
                  && Cubiertos(g, inicio, i, visitado[..], Elementos(pila.Contents()))
    {
      var vecino := g.vecinos[i];
      AristaEn(g, actual, i);
      ghost var antes := pila.Contents();
      if !visitado[vecino] {
        DescubrirDFS(g, actual, vecino, visitado, anterior, pila, origen, orden, cnt);
      }
      if completo {
        ElementosPartes(antes, vecino);
        CompletoCubrir(g, destino, visitado[..], Elementos(antes), Elementos(pila.Contents()), actual, inicio, i);
      }
    }
    if completo {
      assert {} + {actual} == {actual};
      Cerrar(g, visitado[..], Elementos(pila.Contents()), {}, actual);
    }
  }

  /** One iteration of the main loop of `buscar_DFS_grande`: pop, skip a visited node,
      otherwise visit it, stop on the destination, or push its unvisited neighbours.  A
      step that does not find the destination visits a node or shrinks the stack. */
  method PasoDFS(g: Grafo, origen: int, destino: int, visitado: array<bool>,
                 anterior: array<int>, pila: StackGrande, ghost orden: seq<nat>, ghost cnt: nat)
    returns (encontrado: bool, ghost orden': seq<nat>, ghost cnt': nat)
    requires BienFormado(g) && 0 <= destino < g.n
    requires pila.Valid() && pila.datos != anterior && visitado.Length == g.n && !pila.Vacio()
    requires EstadoDFS(g, origen, visitado[..], anterior[..], pila.Contents(), orden, cnt)
    requires Cota(g, visitado[..], |pila.Contents()|, 0)
    modifies visitado, anterior, pila, pila.datos
    ensures pila.Valid()
    ensures EstadoDFS(g, origen, visitado[..], anterior[..], pila.Contents(), orden', cnt')
    ensures Cota(g, visitado[..], |pila.Contents()|, 0)
    ensures encontrado ==> visitado[destino]
    ensures origen == destino && old(pila.Contents()) == [origen] && old(!visitado[origen]) ==> encontrado
    ensures !encontrado ==>
              Libres(visitado[..]) < old(Libres(visitado[..])) ||
              (visitado[..] == old(visitado[..]) && |pila.Contents()| < old(|pila.Contents()|))
    ensures |g.vecinos| <= pila.capacidad && old(Completo(g, destino, visitado[..], Elementos(pila.Contents()), {})) &&
            !encontrado ==>
              Completo(g, destino, visitado[..], Elementos(pila.Contents()), {})
  {
    orden', cnt' := orden, cnt;
    ghost var antes := pila.Contents();
    DesapilarDFS(g, origen, visitado[..], anterior[..], antes, orden', cnt');
    if |g.vecinos| <= pila.capacidad && Completo(g, destino, visitado[..], Elementos(antes), {}) {
      DesapilarCompleto(g, destino, visitado[..], antes);
    }
    var actual := pila.Desapilar();
    if visitado[actual] {
      return false, orden', cnt';
    }
    ghost var vis0 := visitado[..];
    SalidasVisitar(g, vis0, actual);
    visitado[actual] := true;
    assert visitado[..] == vis0[actual := true];
    orden', cnt' := orden'[actual := cnt'], cnt' + 1;
    if actual == destino {
      return true, orden', cnt';
    }
    ExpandirDFS(g, actual, destino, visitado, anterior, pila, origen, orden', cnt');
    encontrado := false;
  }

  /** The main loop of `buscar_DFS_grande`.  While the stack can hold all the edges, a
      search that ends without finding the destination has visited the origin and every
      node reachable from it, and not the destination. */
  method BucleDFS(g: Grafo, origen: int, destino: int, visitado: array<bool>,
                  anterior: array<int>, pila: StackGrande, ghost orden: seq<nat>, ghost cnt: nat)
    returns (encontrado: bool, ghost orden': seq<nat>, ghost cnt': nat)
    requires BienFormado(g) && 0 <= destino < g.n
    requires pila.Valid() && pila.datos != anterior
    requires EstadoDFS(g, origen, visitado[..], anterior[..], pila.Contents(), orden, cnt)
    requires origen == destino ==> pila.Contents() == [origen] && !visitado[origen]
    requires Cota(g, visitado[..], |pila.Contents()|, 0)
    requires |g.vecinos| <= pila.capacidad ==> Completo(g, destino, visitado[..], Elementos(pila.Contents()), {})
    modifies visitado, anterior, pila, pila.datos
    ensures pila.Valid()
    ensures EstadoDFS(g, origen, visitado[..], anterior[..], pila.Contents(), orden', cnt')
    ensures encontrado ==> visitado[destino]
    ensures origen == destino ==> encontrado
    ensures |g.vecinos| <= pila.capacidad && !encontrado ==>
              Frontera(g, visitado[..], {}, {}) && visitado[origen] && !visitado[destino]
  {
    orden', cnt' := orden, cnt;
    encontrado := false;
    while !pila.Vacio() && !encontrado
      invariant pila.Valid() && visitado.Length == g.n
      invariant EstadoDFS(g, origen, visitado[..], anterior[..], pila.Contents(), orden', cnt')
      invariant origen == destino ==> encontrado || (pila.Contents() == [origen] && !visitado[origen])
      invariant encontrado ==> visitado[destino]
      invariant Cota(g, visitado[..], |pila.Contents()|, 0)
      invariant |g.vecinos| <= pila.capacidad && !encontrado ==>
                  Completo(g, destino, visitado[..], Elementos(pila.Contents()), {})
      decreases !encontrado, Libres(visitado[..]), |pila.Contents()|
    {
      encontrado, orden', cnt' := PasoDFS(g, origen, destino, visitado, anterior, pila, orden', cnt');
    }
    if |g.vecinos| <= pila.capacidad && !encontrado {
      assert Elementos(pila.Contents()) == {};
    }
  }

  /** The set-up of `buscar_DFS_grande`: nothing visited, no predecessors, and the origin
      alone on a fresh stack. */
  method IniciarDFS(g: Grafo, origen: int, ghost destino: int)
    returns (visitado: array<bool>, anterior: array<int>, pila: StackGrande, ghost orden: seq<nat>)
    requires BienFormado(g) && 0 <= origen < g.n && 0 <= destino < g.n
    ensures fresh(visitado) && fresh(anterior) && fresh(pila) && fresh(pila.datos)
    ensures visitado.Length == g.n && pila.Valid() && pila.datos != anterior
    ensures EstadoDFS(g, origen, visitado[..], anterior[..], pila.Contents(), orden, 0)
    ensures pila.Contents() == [origen] && !visitado[origen] && pila.capacidad == TAM_MAX_GRANDE
    ensures Cota(g, visitado[..], |pila.Contents()|, 0)
    ensures Completo(g, destino, visitado[..], Elementos(pila.Contents()), {})
  {
    visitado := new bool[g.n](_ => false);
    anterior := NuevoAnterior(g.n);
    orden := seq(g.n, _ => 0);
    pila := new StackGrande(TAM_MAX_GRANDE);
    pila.Apilar(origen);
    EstadoInicialDFS(g, origen, visitado[..], anterior[..], orden);
    CompletoInicial(g, destino, visitado[..], Elementos(pila.Contents()));
  }

  /** `buscar_DFS_grande` once the graph is present and both endpoints are in range: a
      stack search that marks a node when it is popped and fixes a predecessor only at its
      first discovery; the path is rebuilt only when the destination was reached.  While
      the stack can hold every edge it never drops one, and a path is returned exactly when
      the destination is reachable. */
  method DFSGrande(g: Grafo, origen: int, destino: int, camino: array<int>) returns (largo: int)
    requires BienFormado(g) && 0 <= origen < g.n && 0 <= destino < g.n && camino.Length >= g.n
    modifies camino
    ensures 0 <= largo <= g.n
    ensures largo > 0 ==> CaminoDe(g, camino[..largo], origen, destino) && SinRepetir(camino[..largo])
    ensures origen == destino ==> camino[..largo] == [origen]
    ensures |g.vecinos| <= TAM_MAX_GRANDE ==> (largo > 0 <==> Alcanzable(g, origen, destino))
  {
    var visitado, anterior, pila, orden := IniciarDFS(g, origen, destino);
    var encontrado;
    ghost var cnt: nat;
    encontrado, orden, cnt := BucleDFS(g, origen, destino, visitado, anterior, pila, orden, 0);

    largo := 0;
    if encontrado {
      RecorridoRango(g, anterior[..], visitado[..], orden, cnt, origen, destino);
      largo := ReconstruirRecorrido(g, anterior, visitado[..], orden, cnt, origen, destino, camino);
    } else if |g.vecinos| <= TAM_MAX_GRANDE {
      Inalcanzable(g, visitado[..], origen, destino);
    }
  }

  /** `buscar_DFS_grande`: no path without a graph or with an endpoint out of range. */
  method BuscarDFSGrande(grafo: GrafoGrande?, origen: int, destino: int, camino: array<int>)
    returns (largo: int)
    requires grafo != null ==> grafo.Listo() && camino.Length >= grafo.num_nodos
    modifies camino
    ensures 0 <= largo <= camino.Length
    ensures grafo == null || !EnRango(grafo, origen, destino) ==> largo == 0 && camino[..] == old(camino[..])
    ensures largo > 0 ==>
              grafo != null && CaminoDe(grafo.Vista(), camino[..largo], origen, destino) &&
              SinRepetir(camino[..largo])
    ensures grafo != null && EnRango(grafo, origen, destino) && origen == destino ==>
              camino[..largo] == [origen]
    ensures grafo != null && EnRango(grafo, origen, destino) && |grafo.Vista().vecinos| <= TAM_MAX_GRANDE ==>
              (largo > 0 <==> Alcanzable(grafo.Vista(), origen, destino))
  {
    if grafo == null {
      return 0;
    }
    var num_nodos := grafo.GetNumNodosReales();
    if origen < 0 || origen >= num_nodos || destino < 0 || destino >= num_nodos {
      return 0;
    }
    largo := DFSGrande(grafo.Vista(), origen, destino, camino);
  }
  // ---------------------------------------------------------------------------------------
  // Heap searches: Best-First, Dijkstra, A*

  /** The loop state of the three heap searches: a visit-ordered predecessor tree, every
      entry of the heap naming an anchored node, and the origin visited unless every entry
      still names the origin. */
  ghost predicate EstadoMonticulo(g: Grafo, origen: int, vis: seq<bool>, ant: seq<int>,
                                  pq: multiset<NodoPrioridadGrande>, orden: seq<nat>, cnt: nat)
  {
    && Recorrido(g, ant, vis, orden, cnt, origen)
    && (vis[origen] || forall e :: e in pq ==> e.id == origen)
    && (forall e :: e in pq ==> 0 <= e.id < |ant| && Anclado(ant, e.id, origen))
  }

  /** The state right after the origin is inserted, with key `k`. */
  lemma EstadoInicialMonticulo(g: Grafo, origen: int, vis: seq<bool>, ant: seq<int>, orden: seq<nat>,
                               k: int)
    requires |ant| == g.n && 0 <= origen < g.n && |vis| == |ant| && |orden| == |ant|
    requires forall v :: 0 <= v < |ant| ==> ant[v] == -1 && !vis[v]
    ensures EstadoMonticulo(g, origen, vis, ant, multiset{NodoPrioridadGrande(origen, k)}, orden, 0)
    ensures !vis[origen]
  {
    RecorridoInicial(g, ant, vis, orden, origen);
  }

  /** Removing the extracted entry `e`: its node is anchored; a visited node is skipped,
      an unvisited one is visited, with one node fewer left to visit. */
  lemma ExtraerMonticulo(g: Grafo, origen: int, vis: seq<bool>, ant: seq<int>,
                         pq: multiset<NodoPrioridadGrande>, orden: seq<nat>, cnt: nat,
                         e: NodoPrioridadGrande)
    requires EstadoMonticulo(g, origen, vis, ant, pq, orden, cnt) && e in pq
    ensures 0 <= e.id < |vis| && Anclado(ant, e.id, origen)
    ensures vis[e.id] ==> EstadoMonticulo(g, origen, vis, ant, pq - multiset{e}, orden, cnt)
    ensures !vis[e.id] ==>
              && EstadoMonticulo(g, origen, vis[e.id := true], ant, pq - multiset{e},
                                 orden[e.id := cnt], cnt + 1)
              && vis[e.id := true][origen]
              && Libres(vis[e.id := true]) < Libres(vis)
  {
    if !vis[e.id] {
      RecorridoVisitar(g, ant, vis, orden, cnt, origen, e.id);
    }
  }

  /** Linking the unvisited `v` to the visited `u` and inserting an entry for `v` keeps the
      state, whether or not the heap had room. */
  lemma InsertarMonticulo(g: Grafo, origen: int, vis: seq<bool>, ant: seq<int>,
                          pq: multiset<NodoPrioridadGrande>, orden: seq<nat>, cnt: nat,
                          u: int, v: int, x: NodoPrioridadGrande, pq2: multiset<NodoPrioridadGrande>)
    requires EstadoMonticulo(g, origen, vis, ant, pq, orden, cnt) && vis[origen]
    requires 0 <= u < |vis| && vis[u] && Arista(g, u, v) && 0 <= v < |vis| && !vis[v]
    requires x.id == v && (pq2 == pq || pq2 == pq + multiset{x})
    ensures EstadoMonticulo(g, origen, vis, ant[v := u], pq2, orden, cnt)
  {
    RecorridoEnlazar(g, ant, vis, orden, cnt, origen, u, v);
  }

  /** The set-up shared by the heap searches: nothing visited, no predecessors, and a
      fresh heap holding only the origin with key `k`. */
  method IniciarMonticulo(g: Grafo, origen: int, k: int)
    returns (visitado: array<bool>, anterior: array<int>, pq: ColaPrioridadGrande, ghost orden: seq<nat>)
    requires 0 <= origen < g.n
    ensures fresh(visitado) && fresh(anterior) && fresh(pq) && fresh(pq.datos)
    ensures visitado.Length == g.n && pq.Valid()
    ensures EstadoMonticulo(g, origen, visitado[..], anterior[..], pq.Contents(), orden, 0)
    ensures !visitado[origen] && pq.Contents() == multiset{NodoPrioridadGrande(origen, k)}
    ensures pq.capacidad == PQ_MAX_GRANDE && forall v :: 0 <= v < g.n ==> !visitado[v]
  {
    visitado := new bool[g.n](_ => false);
    anterior := NuevoAnterior(g.n);
    orden := seq(g.n, _ => 0);
    pq := new ColaPrioridadGrande(PQ_MAX_GRANDE);
    pq.Insertar(origen, k);
    EstadoInicialMonticulo(g, origen, visitado[..], anterior[..], orden, k);
  }

  /** Records `actual` as the predecessor of the unvisited `vecino`, overwriting any earlier
      one, and inserts `vecino` into the heap with key `clave` (the heap drops it when full). */
  method EnlazarMonticulo(ghost g: Grafo, actual: int, vecino: int, clave: int,
                          visitado: array<bool>, anterior: array<int>, pq: ColaPrioridadGrande,
                          ghost origen: int, ghost orden: seq<nat>, ghost cnt: nat)
    requires pq.Valid()
    requires EstadoMonticulo(g, origen, visitado[..], anterior[..], pq.Contents(), orden, cnt)
    requires visitado.Length == g.n && visitado[origen]
    requires 0 <= actual < visitado.Length && visitado[actual] && Arista(g, actual, vecino)
    requires 0 <= vecino < visitado.Length && !visitado[vecino]
    modifies anterior, pq, pq.datos
    ensures pq.Valid()
    ensures EstadoMonticulo(g, origen, visitado[..], anterior[..], pq.Contents(), orden, cnt)
    ensures anterior[..] == old(anterior[..])[vecino := actual]
    ensures |old(pq.Contents())| < pq.capacidad ==>
              pq.Contents() == old(pq.Contents()) + multiset{NodoPrioridadGrande(vecino, clave)}
    ensures |old(pq.Contents())| >= pq.capacidad ==> pq.Contents() == old(pq.Contents())
  {
    ghost var antes := pq.Contents();
    ghost var ant0 := anterior[..];
    anterior[vecino] := actual;
    pq.Insertar(vecino, clave);
    assert anterior[..] == ant0[vecino := actual];
    InsertarMonticulo(g, origen, visitado[..], ant0, antes, orden, cnt, actual, vecino,
                      NodoPrioridadGrande(vecino, clave), pq.Contents());
  }

  // Best-First

  /** The nodes named by the entries of a heap. */
  ghost function Ids(pq: multiset<NodoPrioridadGrande>): set<int>
  {
    set e | e in pq :: e.id
  }

  /** Inserting an entry adds its node; removing one can only lose its node. */
  lemma IdsPartes(pq: multiset<NodoPrioridadGrande>, x: NodoPrioridadGrande)
    ensures Ids(pq + multiset{x}) == Ids(pq) + {x.id}
    ensures forall t :: t in Ids(pq) ==> t in Ids(pq - multiset{x}) || t == x.id
  {
    forall t | t in Ids(pq)
      ensures t in Ids(pq - multiset{x}) || t == x.id
    {
      var y :| y in pq && y.id == t;
      if y != x {
        assert y in pq - multiset{x};
      }
    }
    assert x in pq + multiset{x};
  }

  /** Extracting `e` from a complete heap: a visited node was already expanded, so the
      rest stays complete; an unvisited one that is not the destination is visited and
      left open. */
  lemma ExtraerCompleto(g: Grafo, destino: int, vis: seq<bool>, pq: multiset<NodoPrioridadGrande>,
                        e: NodoPrioridadGrande)
    requires Completo(g, destino, vis, Ids(pq), {}) && e in pq && 0 <= e.id < |vis|
    ensures vis[e.id] ==> Completo(g, destino, vis, Ids(pq - multiset{e}), {})
    ensures !vis[e.id] && e.id != destino ==>
              Completo(g, destino, vis[e.id := true], Ids(pq - multiset{e}), {e.id})
  {
    IdsPartes(pq, e);
    if vis[e.id] {
      Ampliar(g, vis, Ids(pq), {}, vis, Ids(pq - multiset{e}), {});
    } else if e.id != destino {
      Ampliar(g, vis, Ids(pq), {}, vis[e.id := true], Ids(pq - multiset{e}), {e.id});
    }
  }

  /** The neighbour loop of `buscar_BestFirst_grande`: every unvisited neighbour of
      `actual` gets `actual` as predecessor and a heap entry keyed by the heuristic.  The
      bound on the heap guarantees room for every entry while the heap can hold all the
      edges. */
  method ExpandirBestFirst(g: Grafo, h: (int, int) -> int, destino: int, actual: int,
                           visitado: array<bool>, anterior: array<int>, pq: ColaPrioridadGrande,
                           ghost origen: int, ghost orden: seq<nat>, ghost cnt: nat)
    requires BienFormado(g) && 0 <= actual < g.n
    requires pq.Valid()
    requires EstadoMonticulo(g, origen, visitado[..], anterior[..], pq.Contents(), orden, cnt)
    requires visitado.Length == g.n && visitado[origen] && visitado[actual]
    requires Cota(g, visitado[..], |pq.Contents()|, 1 + g.offset[actual + 1] - g.offset[actual])
    modifies anterior, pq, pq.datos
    ensures pq.Valid()
    ensures EstadoMonticulo(g, origen, visitado[..], anterior[..], pq.Contents(), orden, cnt)
    ensures Cota(g, visitado[..], |pq.Contents()|, 1)
    ensures |g.vecinos| <= pq.capacidad &&
            Completo(g, destino, visitado[..], Ids(old(pq.Contents())), {actual}) ==>
              Completo(g, destino, visitado[..], Ids(pq.Contents()), {})
  {
    TramoDe(g, actual);
    ghost var completo := |g.vecinos| <= pq.capacidad &&
                          Completo(g, destino, visitado[..], Ids(pq.Contents()), {actual});
    var inicio := g.offset[actual];
    var fin := g.offset[actual + 1];
    for i := inicio to fin
      invariant pq.Valid()
      invariant EstadoMonticulo(g, origen, visitado[..], anterior[..], pq.Contents(), orden, cnt)
      invariant Cota(g, visitado[..], |pq.Contents()|, 1 + fin - i)
      invariant completo ==>
                  && Completo(g, destino, visitado[..], Ids(pq.Contents()), {actual})
                  && Cubiertos(g, inicio, i, visitado[..], Ids(pq.Contents()))
    {
      var vecino := g.vecinos[i];
      AristaEn(g, actual, i);
      ghost var antes := pq.Contents();
      if !visitado[vecino] {
        EnlazarMonticulo(g, actual, vecino, h(vecino, destino), visitado, anterior, pq, origen, orden, cnt);
      }
      if completo {
        IdsPartes(antes, NodoPrioridadGrande(vecino, h(vecino, destino)));
        CompletoCubrir(g, destino, visitado[..], Ids(antes), Ids(pq.Contents()), actual, inicio, i);
      }
    }
    if completo {
      assert {} + {actual} == {actual};
      Cerrar(g, visitado[..], Ids(pq.Contents()), {}, actual);
    }
  }

  /** One iteration of the main loop of `buscar_BestFirst_grande`: extract, stop on the
      destination (visited or not), skip a visited node, otherwise visit and expand it. */
  method PasoBestFirst(g: Grafo, h: (int, int) -> int, origen: int, destino: int,
                       visitado: array<bool>, anterior: array<int>, pq: ColaPrioridadGrande,
                       ghost orden: seq<nat>, ghost cnt: nat)
    returns (encontrado: bool, ghost orden': seq<nat>, ghost cnt': nat)
    requires BienFormado(g) && 0 <= destino < g.n
    requires pq.Valid() && visitado.Length == g.n && !pq.Vacia()
    requires EstadoMonticulo(g, origen, visitado[..], anterior[..], pq.Contents(), orden, cnt)
    requires Cota(g, visitado[..], |pq.Contents()|, 0)
    modifies visitado, anterior, pq, pq.datos
    ensures pq.Valid()
    ensures EstadoMonticulo(g, origen, visitado[..], anterior[..], pq.Contents(), orden', cnt')
    ensures Cota(g, visitado[..], |pq.Contents()|, 0)
    ensures encontrado ==> Anclado(anterior[..], destino, origen)
    ensures old(!visitado[origen]) && origen == destino ==> encontrado
    ensures !encontrado ==> visitado[origen]
    ensures !encontrado ==>
              Libres(visitado[..]) < old(Libres(visitado[..])) ||
              (visitado[..] == old(visitado[..]) && |pq.Contents()| < old(|pq.Contents()|))
    ensures |g.vecinos| <= pq.capacidad && old(Completo(g, destino, visitado[..], Ids(pq.Contents()), {})) &&
            !encontrado ==>
              Completo(g, destino, visitado[..], Ids(pq.Contents()), {})
  {
    orden', cnt' := orden, cnt;
    ghost var antes := pq.Contents();
    ghost var completo := |g.vecinos| <= pq.capacidad && Completo(g, destino, visitado[..], Ids(antes), {});
    var actual;
    ghost var e;
    actual, e := pq.ExtraerMin();
    ExtraerMonticulo(g, origen, visitado[..], anterior[..], antes, orden, cnt, e);
    if completo {
      ExtraerCompleto(g, destino, visitado[..], antes, e);
    }
    if actual == destino {
      return true, orden', cnt';
    }
    if visitado[actual] {
      return false, orden', cnt';
    }
    ghost var vis0 := visitado[..];
    SalidasVisitar(g, vis0, actual);
    visitado[actual] := true;
    assert visitado[..] == vis0[actual := true];
    orden', cnt' := orden[actual := cnt], cnt + 1;
    ExpandirBestFirst(g, h, destino, actual, visitado, anterior, pq, origen, orden', cnt');
    encontrado := false;
  }

  /** The main loop of `buscar_BestFirst_grande`: the destination check comes before the
      visited check, so the destination is found on its first extraction, visited or not.
      While the heap can hold all the edges, a search that ends without finding the
      destination has visited the origin and every node reachable from it, and not the
      destination. */
  method BucleBestFirst(g: Grafo, h: (int, int) -> int, origen: int, destino: int,
                        visitado: array<bool>, anterior: array<int>, pq: ColaPrioridadGrande,
                        ghost orden: seq<nat>, ghost cnt: nat)
    returns (encontrado: bool, ghost orden': seq<nat>, ghost cnt': nat)
    requires BienFormado(g) && 0 <= destino < g.n
    requires pq.Valid() && visitado.Length == g.n
    requires EstadoMonticulo(g, origen, visitado[..], anterior[..], pq.Contents(), orden, cnt)
    requires origen == destino ==> !visitado[origen] && pq.Contents() != multiset{}
    requires visitado[origen] || pq.Contents() != multiset{}
    requires Cota(g, visitado[..], |pq.Contents()|, 0)
    requires |g.vecinos| <= pq.capacidad ==> Completo(g, destino, visitado[..], Ids(pq.Contents()), {})
    modifies visitado, anterior, pq, pq.datos
    ensures Recorrido(g, anterior[..], visitado[..], orden', cnt', origen)
    ensures encontrado ==> Anclado(anterior[..], destino, origen)
    ensures origen == destino ==> encontrado
    ensures |g.vecinos| <= pq.capacidad && !encontrado ==>
              Frontera(g, visitado[..], {}, {}) && visitado[origen] && !visitado[destino]
  {
    orden', cnt' := orden, cnt;
    encontrado := false;
    while !pq.Vacia() && !encontrado
      invariant pq.Valid() && visitado.Length == g.n
      invariant EstadoMonticulo(g, origen, visitado[..], anterior[..], pq.Contents(), orden', cnt')
      invariant origen == destino ==> encontrado || (!visitado[origen] && pq.Contents() != multiset{})
      invariant encontrado ==> Anclado(anterior[..], destino, origen)
      invariant encontrado || visitado[origen] || pq.Contents() != multiset{}
      invariant Cota(g, visitado[..], |pq.Contents()|, 0)
      invariant |g.vecinos| <= pq.capacidad && !encontrado ==>
                  Completo(g, destino, visitado[..], Ids(pq.Contents()), {})
      decreases !encontrado, Libres(visitado[..]), |pq.Contents()|
    {
      encontrado, orden', cnt' := PasoBestFirst(g, h, origen, destino, visitado, anterior, pq, orden', cnt');
    }
    if |g.vecinos| <= pq.capacidad && !encontrado {
      assert Ids(pq.Contents()) == {};
    }
  }

  /** `buscar_BestFirst_grande` once the graph is present and both endpoints are in range:
      greedy search on the heuristic `h` alone; the path is rebuilt only when the
      destination was extracted.  While the heap can hold every edge it never drops an
      entry, and a path is returned exactly when the destination is reachable. */
  method BestFirstGrande(g: Grafo, h: (int, int) -> int, origen: int, destino: int, camino: array<int>)
    returns (largo: int)
    requires BienFormado(g) && 0 <= origen < g.n && 0 <= destino < g.n && camino.Length >= g.n
    modifies camino
    ensures 0 <= largo <= g.n
    ensures largo > 0 ==> CaminoDe(g, camino[..largo], origen, destino) && SinRepetir(camino[..largo])
    ensures origen == destino ==> camino[..largo] == [origen]
    ensures |g.vecinos| <= PQ_MAX_GRANDE ==> (largo > 0 <==> Alcanzable(g, origen, destino))
  {
    var visitado, anterior, pq, orden := IniciarMonticulo(g, origen, h(origen, destino));
    CompletoInicial(g, destino, visitado[..], Ids(pq.Contents()));
    var encontrado;
    ghost var cnt: nat;
    encontrado, orden, cnt := BucleBestFirst(g, h, origen, destino, visitado, anterior, pq, orden, 0);

    largo := 0;
    if encontrado {
      largo := ReconstruirRecorrido(g, anterior, visitado[..], orden, cnt, origen, destino, camino);
    } else if |g.vecinos| <= PQ_MAX_GRANDE {
      Inalcanzable(g, visitado[..], origen, destino);
    }
  }

  /** `buscar_BestFirst_grande`: no path without a graph or with an endpoint out of range. */
  method BuscarBestFirstGrande(grafo: GrafoGrande?, h: (int, int) -> int, origen: int, destino: int,
                               camino: array<int>)
    returns (largo: int)
    requires grafo != null ==> grafo.Listo() && camino.Length >= grafo.num_nodos
    modifies camino
    ensures 0 <= largo <= camino.Length
    ensures grafo == null || !EnRango(grafo, origen, destino) ==> largo == 0 && camino[..] == old(camino[..])
    ensures largo > 0 ==>
              grafo != null && CaminoDe(grafo.Vista(), camino[..largo], origen, destino) &&
              SinRepetir(camino[..largo])
    ensures grafo != null && EnRango(grafo, origen, destino) && origen == destino ==>
              camino[..largo] == [origen]
    ensures grafo != null && EnRango(grafo, origen, destino) && |grafo.Vista().vecinos| <= PQ_MAX_GRANDE ==>
              (largo > 0 <==> Alcanzable(grafo.Vista(), origen, destino))
  {
    if grafo == null {
      return 0;
    }
    var num_nodos := grafo.GetNumNodosReales();
    if origen < 0 || origen >= num_nodos || destino < 0 || destino >= num_nodos {
      return 0;
    }
    largo := BestFirstGrande(grafo.Vista(), h, origen, destino, camino);
  }
  // Dijkstra

  /** One edge in the inner loop of `buscar_Dijkstra_grande`: an unvisited neighbour whose
      distance through `actual` is strictly smaller gets that distance, `actual` as
      predecessor, and a heap entry keyed by the new distance; nothing changes otherwise. */
  method RelajarDijkstra(ghost g: Grafo, actual: int, vecino: int, peso: int,
                         visitado: array<bool>, anterior: array<int>, distancia: array<int>,
                         pq: ColaPrioridadGrande, ghost origen: int, ghost orden: seq<nat>, ghost cnt: nat)
    requires pq.Valid() && distancia != anterior && distancia.Length == g.n
    requires EstadoMonticulo(g, origen, visitado[..], anterior[..], pq.Contents(), orden, cnt)
    requires visitado.Length == g.n && visitado[origen]
    requires 0 <= actual < g.n && visitado[actual] && Arista(g, actual, vecino) && 0 <= vecino < g.n
    modifies anterior, distancia, pq, pq.datos
    ensures pq.Valid()
    ensures EstadoMonticulo(g, origen, visitado[..], anterior[..], pq.Contents(), orden, cnt)
    ensures var d := old(distancia[actual]) + peso;
            if !visitado[vecino] && d < old(distancia[vecino]) then
              distancia[..] == old(distancia[..])[vecino := d] &&
              anterior[..] == old(anterior[..])[vecino := actual]
            else
              distancia[..] == old(distancia[..]) && anterior[..] == old(anterior[..])
  {
    if !visitado[vecino] {
      var nueva_distancia := distancia[actual] + peso;
      if nueva_distancia < distancia[vecino] {
        MejorarDijkstra(g, actual, vecino, nueva_distancia, visitado, anterior, distancia, pq, origen, orden, cnt);
      }
    }
  }

  /** The update `RelajarDijkstra` makes once the neighbour improves. */
  method MejorarDijkstra(ghost g: Grafo, actual: int, vecino: int, nueva_distancia: int,
                         visitado: array<bool>, anterior: array<int>, distancia: array<int>,
                         pq: ColaPrioridadGrande, ghost origen: int, ghost orden: seq<nat>, ghost cnt: nat)
    requires pq.Valid() && distancia != anterior && distancia.Length == g.n
    requires EstadoMonticulo(g, origen, visitado[..], anterior[..], pq.Contents(), orden, cnt)
    requires visitado.Length == g.n && visitado[origen]
    requires 0 <= actual < g.n && visitado[actual] && Arista(g, actual, vecino) && 0 <= vecino < g.n && !visitado[vecino]
    modifies anterior, distancia, pq, pq.datos
    ensures pq.Valid()
    ensures EstadoMonticulo(g, origen, visitado[..], anterior[..], pq.Contents(), orden, cnt)
    ensures distancia[..] == old(distancia[..])[vecino := nueva_distancia]
    ensures anterior[..] == old(anterior[..])[vecino := actual]
  {
    ghost var dist0 := distancia[..];
    distancia[vecino] := nueva_distancia;
    EnlazarMonticulo(g, actual, vecino, nueva_distancia, visitado, anterior, pq, origen, orden, cnt);
    assert distancia[..] == dist0[vecino := nueva_distancia];
  }

  /** The inner loop of `buscar_Dijkstra_grande`. */
  method ExpandirDijkstra(g: Grafo, actual: int, visitado: array<bool>, anterior: array<int>,
                          distancia: array<int>, pq: ColaPrioridadGrande,
                          ghost origen: int, ghost orden: seq<nat>, ghost cnt: nat)
    requires BienFormado(g) && 0 <= actual < g.n
    requires pq.Valid() && distancia != anterior && distancia.Length == g.n
    requires EstadoMonticulo(g, origen, visitado[..], anterior[..], pq.Contents(), orden, cnt)
    requires visitado.Length == g.n && visitado[origen] && visitado[actual]
    modifies anterior, distancia, pq, pq.datos
    ensures pq.Valid()
    ensures EstadoMonticulo(g, origen, visitado[..], anterior[..], pq.Contents(), orden, cnt)
  {
    TramoDe(g, actual);
    var inicio := g.offset[actual];
    var fin := g.offset[actual + 1];
    for i := inicio to fin
      invariant pq.Valid()
      invariant EstadoMonticulo(g, origen, visitado[..], anterior[..], pq.Contents(), orden, cnt)
    {
      AristaEn(g, actual, i);
      RelajarDijkstra(g, actual, g.vecinos[i], g.pesos[i], visitado, anterior, distancia, pq, origen, orden, cnt);
    }
  }

  /** One iteration of the main loop of `buscar_Dijkstra_grande`: extract, stop on the
      destination (visited or not), skip a visited node, otherwise visit and relax. */
  method PasoDijkstra(g: Grafo, origen: int, destino: int, visitado: array<bool>, anterior: array<int>,
                      distancia: array<int>, pq: ColaPrioridadGrande, ghost orden: seq<nat>, ghost cnt: nat)
    returns (encontrado: bool, ghost orden': seq<nat>, ghost cnt': nat)
    requires BienFormado(g) && 0 <= destino < g.n
    requires pq.Valid() && visitado.Length == g.n && !pq.Vacia()
    requires distancia != anterior && distancia.Length == g.n
    requires EstadoMonticulo(g, origen, visitado[..], anterior[..], pq.Contents(), orden, cnt)
    modifies visitado, anterior, distancia, pq, pq.datos
    ensures pq.Valid()
    ensures EstadoMonticulo(g, origen, visitado[..], anterior[..], pq.Contents(), orden', cnt')
    ensures encontrado ==> Anclado(anterior[..], destino, origen)
    ensures old(!visitado[origen]) && origen == destino ==> encontrado
    ensures !encontrado ==> visitado[origen]
    ensures !encontrado ==>
              Libres(visitado[..]) < old(Libres(visitado[..])) ||
              (visitado[..] == old(visitado[..]) && |pq.Contents()| < old(|pq.Contents()|))
  {
    orden', cnt' := orden, cnt;
    ghost var antes := pq.Contents();
    var actual;
    ghost var e;
    actual, e := pq.ExtraerMin();
    ExtraerMonticulo(g, origen, visitado[..], anterior[..], antes, orden, cnt, e);
    if actual == destino {
      return true, orden', cnt';
    }
    if visitado[actual] {
      return false, orden', cnt';
    }
    ghost var vis0 := visitado[..];
    visitado[actual] := true;
    assert visitado[..] == vis0[actual := true];
    orden', cnt' := orden[actual := cnt], cnt + 1;
    ExpandirDijkstra(g, actual, visitado, anterior, distancia, pq, origen, orden', cnt');
    encontrado := false;
  }

  /** The main loop of `buscar_Dijkstra_grande`. */
  method BucleDijkstra(g: Grafo, origen: int, destino: int, visitado: array<bool>, anterior: array<int>,
                       distancia: array<int>, pq: ColaPrioridadGrande, ghost orden: seq<nat>, ghost cnt: nat)
    returns (encontrado: bool, ghost orden': seq<nat>, ghost cnt': nat)
    requires BienFormado(g) && 0 <= destino < g.n
    requires pq.Valid() && visitado.Length == g.n
    requires distancia != anterior && distancia.Length == g.n
    requires EstadoMonticulo(g, origen, visitado[..], anterior[..], pq.Contents(), orden, cnt)
    requires origen == destino ==> !visitado[origen] && pq.Contents() != multiset{}
    modifies visitado, anterior, distancia, pq, pq.datos
    ensures Recorrido(g, anterior[..], visitado[..], orden', cnt', origen)
    ensures encontrado ==> Anclado(anterior[..], destino, origen)
    ensures origen == destino ==> encontrado
  {
    orden', cnt' := orden, cnt;
    encontrado := false;
    while !pq.Vacia() && !encontrado
      invariant pq.Valid() && visitado.Length == g.n
      invariant EstadoMonticulo(g, origen, visitado[..], anterior[..], pq.Contents(), orden', cnt')
      invariant origen == destino ==> encontrado || (!visitado[origen] && pq.Contents() != multiset{})
      invariant encontrado ==> Anclado(anterior[..], destino, origen)
      decreases !encontrado, Libres(visitado[..]), |pq.Contents()|
    {
      encontrado, orden', cnt' := PasoDijkstra(g, origen, destino, visitado, anterior, distancia, pq, orden', cnt');
    }
  }

  /** `buscar_Dijkstra_grande` once the graph is present and both endpoints are in range:
      distances start at 1e9 with the origin at 0; the path is rebuilt only when the
      destination was extracted. */
  method DijkstraGrande(g: Grafo, origen: int, destino: int, camino: array<int>) returns (largo: int)
    requires BienFormado(g) && 0 <= origen < g.n && 0 <= destino < g.n && camino.Length >= g.n
    modifies camino
    ensures 0 <= largo <= g.n
    ensures largo > 0 ==> CaminoDe(g, camino[..largo], origen, destino) && SinRepetir(camino[..largo])
    ensures origen == destino ==> camino[..largo] == [origen]
  {
    var visitado, anterior, pq, orden := IniciarMonticulo(g, origen, 0);
    var distancia := new int[g.n](_ => INFINITO);
    distancia[origen] := 0;
    var encontrado;
    ghost var cnt: nat;
    encontrado, orden, cnt := BucleDijkstra(g, origen, destino, visitado, anterior, distancia, pq, orden, 0);

    largo := 0;
    if encontrado {
      largo := ReconstruirRecorrido(g, anterior, visitado[..], orden, cnt, origen, destino, camino);
    }
  }

  /** `buscar_Dijkstra_grande`: no path without a graph or with an endpoint out of range. */
  method BuscarDijkstraGrande(grafo: GrafoGrande?, origen: int, destino: int, camino: array<int>)
    returns (largo: int)
    requires grafo != null ==> grafo.Listo() && camino.Length >= grafo.num_nodos
    modifies camino
    ensures 0 <= largo <= camino.Length
    ensures grafo == null || !EnRango(grafo, origen, destino) ==> largo == 0 && camino[..] == old(camino[..])
    ensures largo > 0 ==>
              grafo != null && CaminoDe(grafo.Vista(), camino[..largo], origen, destino) &&
              SinRepetir(camino[..largo])
    ensures grafo != null && EnRango(grafo, origen, destino) && origen == destino ==>
              camino[..largo] == [origen]
  {
    if grafo == null {
      return 0;
    }
    var num_nodos := grafo.GetNumNodosReales();
    if origen < 0 || origen >= num_nodos || destino < 0 || destino >= num_nodos {
      return 0;
    }
    largo := DijkstraGrande(grafo.Vista(), origen, destino, camino);
  }

  // A*

  /** One edge in the inner loop of `buscar_AStar_grande`: an unvisited neighbour whose
      cost through `actual` is strictly smaller gets `actual` as predecessor, that cost as
      its g-score, g-score plus `h(vecino, destino)` as its f-score, and a heap entry keyed
      by the f-score; nothing changes otherwise. */
  method RelajarAStar(ghost g: Grafo, h: (int, int) -> int, destino: int, actual: int, vecino: int, peso: int,
                      visitado: array<bool>, anterior: array<int>, costoG: array<int>, costoF: array<int>,
                      pq: ColaPrioridadGrande, ghost origen: int, ghost orden: seq<nat>, ghost cnt: nat)
    requires pq.Valid() && costoG.Length == g.n && costoF.Length == g.n
    requires costoG != anterior && costoF != anterior && costoG != costoF
    requires EstadoMonticulo(g, origen, visitado[..], anterior[..], pq.Contents(), orden, cnt)
    requires visitado.Length == g.n && visitado[origen]
    requires 0 <= actual < g.n && visitado[actual] && Arista(g, actual, vecino) && 0 <= vecino < g.n
    modifies anterior, costoG, costoF, pq, pq.datos
    ensures pq.Valid()
    ensures EstadoMonticulo(g, origen, visitado[..], anterior[..], pq.Contents(), orden, cnt)
    ensures var c := old(costoG[actual]) + peso;
            if !visitado[vecino] && c < old(costoG[vecino]) then
              && costoG[..] == old(costoG[..])[vecino := c]
              && costoF[..] == old(costoF[..])[vecino := c + h(vecino, destino)]
              && anterior[..] == old(anterior[..])[vecino := actual]
            else
              costoG[..] == old(costoG[..]) && costoF[..] == old(costoF[..]) &&
              anterior[..] == old(anterior[..])
  {
    if !visitado[vecino] {
      var tentativo := costoG[actual] + peso;
      if tentativo < costoG[vecino] {
        MejorarAStar(g, h, destino, actual, vecino, tentativo, visitado, anterior, costoG, costoF,
                     pq, origen, orden, cnt);
      }
    }
  }

  /** The update `RelajarAStar` makes once the neighbour improves. */
  method MejorarAStar(ghost g: Grafo, h: (int, int) -> int, destino: int, actual: int, vecino: int,
                      tentativo: int, visitado: array<bool>, anterior: array<int>,
                      costoG: array<int>, costoF: array<int>,
                      pq: ColaPrioridadGrande, ghost origen: int, ghost orden: seq<nat>, ghost cnt: nat)
    requires pq.Valid() && costoG.Length == g.n && costoF.Length == g.n
    requires costoG != anterior && costoF != anterior && costoG != costoF
    requires EstadoMonticulo(g, origen, visitado[..], anterior[..], pq.Contents(), orden, cnt)
    requires visitado.Length == g.n && visitado[origen]
    requires 0 <= actual < g.n && visitado[actual] && Arista(g, actual, vecino) && 0 <= vecino < g.n && !visitado[vecino]
    modifies anterior, costoG, costoF, pq, pq.datos
    ensures pq.Valid()
    ensures EstadoMonticulo(g, origen, visitado[..], anterior[..], pq.Contents(), orden, cnt)
    ensures costoG[..] == old(costoG[..])[vecino := tentativo]
    ensures costoF[..] == old(costoF[..])[vecino := tentativo + h(vecino, destino)]
    ensures anterior[..] == old(anterior[..])[vecino := actual]
  {
    ghost var g0, f0 := costoG[..], costoF[..];
    costoG[vecino] := tentativo;
    costoF[vecino] := costoG[vecino] + h(vecino, destino);
    assert costoG[..] == g0[vecino := tentativo];
    assert costoF[..] == f0[vecino := tentativo + h(vecino, destino)];
    EnlazarMonticulo(g, actual, vecino, costoF[vecino], visitado, anterior, pq, origen, orden, cnt);
  }

  /** The inner loop of `buscar_AStar_grande`. */
  method ExpandirAStar(g: Grafo, h: (int, int) -> int, destino: int, actual: int,
                       visitado: array<bool>, anterior: array<int>, costoG: array<int>, costoF: array<int>,
                       pq: ColaPrioridadGrande, ghost origen: int, ghost orden: seq<nat>, ghost cnt: nat)
    requires BienFormado(g) && 0 <= actual < g.n
    requires pq.Valid() && costoG.Length == g.n && costoF.Length == g.n
    requires costoG != anterior && costoF != anterior && costoG != costoF
    requires EstadoMonticulo(g, origen, visitado[..], anterior[..], pq.Contents(), orden, cnt)
    requires visitado.Length == g.n && visitado[origen] && visitado[actual]
    modifies anterior, costoG, costoF, pq, pq.datos
    ensures pq.Valid()
    ensures EstadoMonticulo(g, origen, visitado[..], anterior[..], pq.Contents(), orden, cnt)
  {
    TramoDe(g, actual);
    var inicio := g.offset[actual];
    var fin := g.offset[actual + 1];
    for i := inicio to fin
      invariant pq.Valid()
      invariant EstadoMonticulo(g, origen, visitado[..], anterior[..], pq.Contents(), orden, cnt)
    {
      AristaEn(g, actual, i);
      RelajarAStar(g, h, destino, actual, g.vecinos[i], g.pesos[i], visitado, anterior, costoG, costoF,
                   pq, origen, orden, cnt);
    }
  }

  /** One iteration of the main loop of `buscar_AStar_grande`. */
  method PasoAStar(g: Grafo, h: (int, int) -> int, origen: int, destino: int,
                   visitado: array<bool>, anterior: array<int>, costoG: array<int>, costoF: array<int>,
                   pq: ColaPrioridadGrande, ghost orden: seq<nat>, ghost cnt: nat)
    returns (encontrado: bool, ghost orden': seq<nat>, ghost cnt': nat)
    requires BienFormado(g) && 0 <= destino < g.n
    requires pq.Valid() && visitado.Length == g.n && !pq.Vacia()
    requires costoG.Length == g.n && costoF.Length == g.n
    requires costoG != anterior && costoF != anterior && costoG != costoF
    requires EstadoMonticulo(g, origen, visitado[..], anterior[..], pq.Contents(), orden, cnt)
    modifies visitado, anterior, costoG, costoF, pq, pq.datos
    ensures pq.Valid()
    ensures EstadoMonticulo(g, origen, visitado[..], anterior[..], pq.Contents(), orden', cnt')
    ensures encontrado ==> Anclado(anterior[..], destino, origen)
    ensures old(!visitado[origen]) && origen == destino ==> encontrado
    ensures !encontrado ==> visitado[origen]
    ensures !encontrado ==>
              Libres(visitado[..]) < old(Libres(visitado[..])) ||
              (visitado[..] == old(visitado[..]) && |pq.Contents()| < old(|pq.Contents()|))
  {
    orden', cnt' := orden, cnt;
    ghost var antes := pq.Contents();
    var actual;
    ghost var e;
    actual, e := pq.ExtraerMin();
    ExtraerMonticulo(g, origen, visitado[..], anterior[..], antes, orden, cnt, e);
    if actual == destino {
      return true, orden', cnt';
    }
    if visitado[actual] {
      return false, orden', cnt';
    }
    ghost var vis0 := visitado[..];
    visitado[actual] := true;
    assert visitado[..] == vis0[actual := true];
    orden', cnt' := orden[actual := cnt], cnt + 1;
    ExpandirAStar(g, h, destino, actual, visitado, anterior, costoG, costoF, pq, origen, orden', cnt');
    encontrado := false;
  }

  /** The main loop of `buscar_AStar_grande`. */
  method BucleAStar(g: Grafo, h: (int, int) -> int, origen: int, destino: int,
                    visitado: array<bool>, anterior: array<int>, costoG: array<int>, costoF: array<int>,
                    pq: ColaPrioridadGrande, ghost orden: seq<nat>, ghost cnt: nat)
    returns (encontrado: bool, ghost orden': seq<nat>, ghost cnt': nat)
    requires BienFormado(g) && 0 <= destino < g.n
    requires pq.Valid() && visitado.Length == g.n
    requires costoG.Length == g.n && costoF.Length == g.n
    requires costoG != anterior && costoF != anterior && costoG != costoF
    requires EstadoMonticulo(g, origen, visitado[..], anterior[..], pq.Contents(), orden, cnt)
    requires origen == destino ==> !visitado[origen] && pq.Contents() != multiset{}
    modifies visitado, anterior, costoG, costoF, pq, pq.datos
    ensures Recorrido(g, anterior[..], visitado[..], orden', cnt', origen)
    ensures encontrado ==> Anclado(anterior[..], destino, origen)
    ensures origen == destino ==> encontrado
  {
    orden', cnt' := orden, cnt;
    encontrado := false;
    while !pq.Vacia() && !encontrado
      invariant pq.Valid() && visitado.Length == g.n
      invariant EstadoMonticulo(g, origen, visitado[..], anterior[..], pq.Contents(), orden', cnt')
      invariant origen == destino ==> encontrado || (!visitado[origen] && pq.Contents() != multiset{})
      invariant encontrado ==> Anclado(anterior[..], destino, origen)
      decreases !encontrado, Libres(visitado[..]), |pq.Contents()|
    {
      encontrado, orden', cnt' := PasoAStar(g, h, origen, destino, visitado, anterior, costoG, costoF,
                                            pq, orden', cnt');
    }
  }

  /** `buscar_AStar_grande` once the graph is present and both endpoints are in range:
      g-scores start at 1e9 with the origin at 0, f-scores at 1e9 with the origin at
      `h(origen, destino)`; the path is rebuilt only when the destination was extracted. */
  method AStarGrande(g: Grafo, h: (int, int) -> int, origen: int, destino: int, camino: array<int>)
    returns (largo: int)
    requires BienFormado(g) && 0 <= origen < g.n && 0 <= destino < g.n && camino.Length >= g.n
    modifies camino
    ensures 0 <= largo <= g.n
    ensures largo > 0 ==> CaminoDe(g, camino[..largo], origen, destino) && SinRepetir(camino[..largo])
    ensures origen == destino ==> camino[..largo] == [origen]
  {
    var visitado, anterior, pq, orden := IniciarMonticulo(g, origen, h(origen, destino));
    var costoG := new int[g.n](_ => INFINITO);
    var costoF := new int[g.n](_ => INFINITO);
    costoG[origen] := 0;
    costoF[origen] := h(origen, destino);
    var encontrado;
    ghost var cnt: nat;
    encontrado, orden, cnt := BucleAStar(g, h, origen, destino, visitado, anterior, costoG, costoF,
                                         pq, orden, 0);

    largo := 0;
    if encontrado {
      largo := ReconstruirRecorrido(g, anterior, visitado[..], orden, cnt, origen, destino, camino);
    }
  }

  /** `buscar_AStar_grande`: no path without a graph or with an endpoint out of range. */
  method BuscarAStarGrande(grafo: GrafoGrande?, h: (int, int) -> int, origen: int, destino: int,
                           camino: array<int>)
    returns (largo: int)
    requires grafo != null ==> grafo.Listo() && camino.Length >= grafo.num_nodos
    modifies camino
    ensures 0 <= largo <= camino.Length
    ensures grafo == null || !EnRango(grafo, origen, destino) ==> largo == 0 && camino[..] == old(camino[..])
    ensures largo > 0 ==>
              grafo != null && CaminoDe(grafo.Vista(), camino[..largo], origen, destino) &&
              SinRepetir(camino[..largo])
    ensures grafo != null && EnRango(grafo, origen, destino) && origen == destino ==>
              camino[..largo] == [origen]
  {
    if grafo == null {
      return 0;
    }
    var num_nodos := grafo.GetNumNodosReales();
    if origen < 0 || origen >= num_nodos || destino < 0 || destino >= num_nodos {
      return 0;
    }
    largo := AStarGrande(grafo.Vista(), h, origen, destino, camino);
  }
}
