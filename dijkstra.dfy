/** `buscar_DIJKSTRA` of `dijkstra.cpp` over the small compiled-in graph.  Its main loop is
    the one of `buscar_Dijkstra_grande` (skip a visited node, visit, stop on the destination,
    relax every edge without looking at `visitado`), so it is run here by
    `DijkstraGrande.BucleDijkstra`.  The differences lie around the loop: the distances start
    at the finite constant `INFINITO` (1e9) rather than at floating-point infinity, and the
    path is always rebuilt. */
module Dijkstra {
  import opened Csr
  import opened Caminos
  import opened Relajacion
  import AlgoritmosGrandes
  import DijkstraGrande

  /** `buscar_DIJKSTRA`: the buffer always receives the reversed predecessor chain of the
      destination, a repetition-free walk from the origin when the destination was reached
      and `[destino]` otherwise.  Since `INFINITO` is an ordinary number, an edge is relaxed
      only when the new distance is below it. */
  method BuscarDijkstra(g: Grafo, origen: int, destino: int, camino: array<int>) returns (largo: int)
    requires BienFormado(g) && PesosNoNegativos(g)
    requires 0 <= origen < g.n && 0 <= destino < g.n && camino.Length >= g.n
    modifies camino
    ensures 1 <= largo <= g.n && SinRepetir(camino[..largo])
    ensures CaminoDe(g, camino[..largo], origen, destino) || camino[..largo] == [destino]
    ensures origen == destino ==> camino[..largo] == [origen]
  {
    var visitado, anterior, pq := IniciarPerezoso(g.n, origen, 0);
    var distancia := new Distancia[g.n](_ => Finita(AlgoritmosGrandes.INFINITO));
    distancia[origen] := Finita(0);
    PerezosoInicial(g, origen, anterior[..], distancia[..], 0);
    var encontrado;
    ghost var sello: seq<nat>, t: nat;
    encontrado, sello, t := DijkstraGrande.BucleDijkstra(g, origen, destino, visitado, anterior, distancia,
                                                         pq, seq(g.n, _ => 0), 1);
    RangoDistanciaDesciende(anterior[..], distancia[..], sello, t);
    largo := Reconstruir(g, anterior, RangoDistancia(distancia[..], sello, t), origen, destino, camino);
  }
}
