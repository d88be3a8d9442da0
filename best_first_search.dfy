/** `buscar_BestFirst` of `best_first_search.cpp` over the small compiled-in graph.  Its
    main loop is the one of `buscar_BestFirst_grande` (stop on the destination before the
    visited test, skip a visited node, visit, link and insert every unvisited neighbour keyed
    by the heuristic), run here by `AlgoritmosGrandes.BucleBestFirst`.  Unlike the large-graph
    version it checks no endpoint and always rebuilds the path. */
module BestFirstSearch {
  import opened Csr
  import opened Caminos
  import AlgoritmosGrandes
  import EstructurasGrandes

  /** `buscar_BestFirst`: the buffer always receives the reversed predecessor chain of the
      destination, a repetition-free walk from the origin when the destination was
      extracted and `[destino]` otherwise.  While the heap can hold every edge, the
      destination is extracted exactly when it is reachable. */
  method BuscarBestFirst(g: Grafo, h: (int, int) -> int, origen: int, destino: int, camino: array<int>)
    returns (largo: int)
    requires BienFormado(g) && 0 <= origen < g.n && 0 <= destino < g.n && camino.Length >= g.n
    modifies camino
    ensures 1 <= largo <= g.n && SinRepetir(camino[..largo])
    ensures CaminoDe(g, camino[..largo], origen, destino) || camino[..largo] == [destino]
    ensures origen == destino ==> camino[..largo] == [origen]
    ensures !Alcanzable(g, origen, destino) ==> camino[..largo] == [destino]
    ensures |g.vecinos| <= EstructurasGrandes.PQ_MAX_GRANDE && Alcanzable(g, origen, destino) ==>
              CaminoDe(g, camino[..largo], origen, destino)
  {
    var visitado, anterior, pq, orden := AlgoritmosGrandes.IniciarMonticulo(g, origen, h(origen, destino));
    AlgoritmosGrandes.CompletoInicial(g, destino, visitado[..], AlgoritmosGrandes.Ids(pq.Contents()));
    var encontrado;
    ghost var cnt: nat;
    encontrado, orden, cnt := AlgoritmosGrandes.BucleBestFirst(g, h, origen, destino, visitado, anterior, pq,
                                                               orden, 0);
    if !encontrado && |g.vecinos| <= EstructurasGrandes.PQ_MAX_GRANDE {
      Inalcanzable(g, visitado[..], origen, destino);
    }
    largo := ReconstruirRecorrido(g, anterior, visitado[..], orden, cnt, origen, destino, camino);
  }
}
