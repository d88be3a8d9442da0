/** `buscar_AStar` of `a_estrella.cpp` over the small compiled-in graph.  Its main loop is
    the one of `buscar_AStar_grande`, run here by `DijkstraGrande.BucleAStar`; the scores
    start at the finite constant 1e9, the path is always rebuilt, and the reversal swaps
    through `intercambiar`.  The Euclidean `heuristica` over the node coordinates is the
    parameter `h`. */
module AEstrella {
  import opened Csr
  import opened Caminos
  import opened Relajacion
  import AlgoritmosGrandes
  import DijkstraGrande

  /** `intercambiar(a, b)` on the two cells `i` and `j` of `camino`. */
  method Intercambiar(camino: array<int>, i: int, j: int)
    requires 0 <= i < camino.Length && 0 <= j < camino.Length
    modifies camino
    ensures camino[i] == old(camino[j]) && camino[j] == old(camino[i])
    ensures forall k :: 0 <= k < camino.Length && k != i && k != j ==> camino[k] == old(camino[k])
  {
    var temp := camino[i];
    camino[i] := camino[j];
    camino[j] := temp;
  }

  /** The reversal loop of `buscar_AStar`: `intercambiar(camino[i], camino[largo - 1 - i])`
      for `i < largo / 2` reverses `camino[0..largo)` and leaves the rest alone. */
  method InvertirIntercambiando(camino: array<int>, largo: int)
    requires 0 <= largo <= camino.Length
    modifies camino
    ensures camino[..largo] == Invertida(old(camino[..largo]))
    ensures camino[largo..] == old(camino[largo..])
  {
    ghost var original := camino[..];
    for i := 0 to largo / 2
      invariant forall k :: 0 <= k < i ==> camino[k] == original[largo - 1 - k]
      invariant forall k :: 0 <= k < i ==> camino[largo - 1 - k] == original[k]
      invariant forall k :: i <= k < largo - i ==> camino[k] == original[k]
      invariant forall k :: largo <= k < camino.Length ==> camino[k] == original[k]
    {
      Intercambiar(camino, i, largo - 1 - i);
    }
    assert camino[..largo] == Invertida(original[..largo]);
  }

  /** `buscar_AStar`: the buffer always receives the reversed predecessor chain of the
      destination, a repetition-free walk from the origin when the destination was reached
      and `[destino]` otherwise. */
  method BuscarAStar(g: Grafo, h: (int, int) -> int, origen: int, destino: int, camino: array<int>)
    returns (largo: int)
    requires BienFormado(g) && PesosNoNegativos(g)
    requires 0 <= origen < g.n && 0 <= destino < g.n && camino.Length >= g.n
    modifies camino
    ensures 1 <= largo <= g.n && SinRepetir(camino[..largo])
    ensures CaminoDe(g, camino[..largo], origen, destino) || camino[..largo] == [destino]
    ensures origen == destino ==> camino[..largo] == [origen]
  {
    var visitado, anterior, pq := IniciarPerezoso(g.n, origen, h(origen, destino));
    var costoG := new Distancia[g.n](_ => Finita(AlgoritmosGrandes.INFINITO));
    var costoF := new Distancia[g.n](_ => Finita(AlgoritmosGrandes.INFINITO));
    costoG[origen] := Finita(0);
    costoF[origen] := Finita(h(origen, destino));
    PerezosoInicial(g, origen, anterior[..], costoG[..], h(origen, destino));
    var encontrado;
    ghost var sello: seq<nat>, t: nat;
    encontrado, sello, t := DijkstraGrande.BucleAStar(g, h, origen, destino, visitado, anterior, costoG, costoF,
                                                      pq, seq(g.n, _ => 0), 1);
    RangoDistanciaDesciende(anterior[..], costoG[..], sello, t);
    largo := ReconstruirIntercambiando(g, anterior, RangoDistancia(costoG[..], sello, t), origen, destino,
                                       camino);
  }

  /** The reconstruction of `buscar_AStar`: walk the chain, then reverse it with
      `intercambiar`.  Same result as `Caminos.Reconstruir`. */
  method ReconstruirIntercambiando(ghost g: Grafo, ant: array<int>, ghost rank: seq<nat>, origen: int,
                                   destino: int, camino: array<int>)
    returns (largo: int)
    requires camino != ant && camino.Length >= g.n
    requires Arbol(g, ant[..], origen) && Descendente(ant[..], rank) && 0 <= destino < ant.Length
    modifies camino
    ensures 1 <= largo <= g.n && SinRepetir(camino[..largo])
    ensures Anclado(ant[..], destino, origen) ==> CaminoDe(g, camino[..largo], origen, destino)
    ensures !Anclado(ant[..], destino, origen) ==> camino[..largo] == [destino]
  {
    Reconstruccion(g, ant[..], rank, origen, destino);
    largo := Recorrer(ant, rank, destino, camino);
    InvertirIntercambiando(camino, largo);
  }
}
