/** The second pair of large-graph searches, `buscar_Dijkstra_grande` and
    `buscar_AStar_grande` of `dijkstra_grande.cpp`.  They differ from the searches of
    `algoritmos_grandes.cpp`: they index all `MAX_NODES_LARGE` slots and check neither
    endpoint against the number of nodes, distances start at floating-point infinity,
    relaxation does not look at `visitado`, a node is marked visited before the destination
    test, and Dijkstra rebuilds a path only when the destination has a predecessor (so
    `origen == destino` yields no path).  Weights must be non-negative: otherwise a
    relaxation could close a predecessor cycle and the reconstruction loop would not end. */
module DijkstraGrande {
  import opened Csr
  import opened Caminos
  import opened Relajacion
  import opened EstructurasGrandes
  import opened GrafoGrande

  /** What the two searches assume of their caller: a graph whose slices over all
      `MAX_NODES_LARGE` slots are well formed, non-negative weights, and both endpoints
      among those slots. */
  ghost predicate Admisible(grafo: GrafoGrande, origen: int, destino: int)
    reads grafo
  {
    BienFormado(grafo.VistaCompleta()) && PesosNoNegativos(grafo.VistaCompleta()) &&
    0 <= origen < MAX_NODES_LARGE && 0 <= destino < MAX_NODES_LARGE
  }

  // Dijkstra

  /** One edge in the inner loop of `buscar_Dijkstra_grande`: when the distance through
      `actual` is strictly smaller (in floating-point terms) it replaces `vecino`'s distance
      and predecessor, visited or not, and `vecino` is inserted with that distance. */
  method RelajarDijkstra(ghost g: Grafo, actual: int, vecino: int, peso: int,
                         anterior: array<int>, distancia: array<Distancia>, pq: ColaPrioridadGrande,
                         ghost origen: int, ghost sello: seq<nat>, ghost t: nat)
    returns (ghost sello': seq<nat>, ghost t': nat)
    requires pq.Valid() && distancia.Length == anterior.Length && peso >= 0
    requires Perezoso(g, origen, anterior[..], distancia[..], sello, t, pq.Contents())
    requires 0 <= actual < anterior.Length && Anclado(anterior[..], actual, origen)
    requires Arista(g, actual, vecino) && 0 <= vecino < anterior.Length
    modifies anterior, distancia, pq, pq.datos
    ensures pq.Valid()
    ensures Perezoso(g, origen, anterior[..], distancia[..], sello', t', pq.Contents())
    ensures Anclado(anterior[..], actual, origen)
    ensures var nueva := Sumar(old(distancia[actual]), peso);
            if Menor(nueva, old(distancia[vecino])) then
              distancia[..] == old(distancia[..])[vecino := nueva] &&
              anterior[..] == old(anterior[..])[vecino := actual]
            else
              distancia[..] == old(distancia[..]) && anterior[..] == old(anterior[..])
  {
    sello', t' := sello, t;
    var nueva_distancia := Sumar(distancia[actual], peso);
    if Menor(nueva_distancia, distancia[vecino]) {
      ghost var d0 := distancia[..];
      distancia[vecino] := nueva_distancia;
      assert distancia[..] == d0[vecino := nueva_distancia];
      ghost var d';
      d', sello', t' := EnlazarPerezoso(g, actual, vecino, nueva_distancia.valor, nueva_distancia.valor,
                                        anterior, pq, origen, d0, sello, t);
    }
  }

  /** The inner loop of `buscar_Dijkstra_grande` over `actual`'s slice. */
  method ExpandirDijkstra(g: Grafo, actual: int, anterior: array<int>, distancia: array<Distancia>,
                          pq: ColaPrioridadGrande, ghost origen: int, ghost sello: seq<nat>, ghost t: nat)
    returns (ghost sello': seq<nat>, ghost t': nat)
    requires BienFormado(g) && PesosNoNegativos(g) && 0 <= actual < g.n
    requires pq.Valid() && anterior.Length == g.n && distancia.Length == g.n
    requires Perezoso(g, origen, anterior[..], distancia[..], sello, t, pq.Contents())
    requires Anclado(anterior[..], actual, origen)
    modifies anterior, distancia, pq, pq.datos
    ensures pq.Valid()
    ensures Perezoso(g, origen, anterior[..], distancia[..], sello', t', pq.Contents())
  {
    sello', t' := sello, t;
    TramoDe(g, actual);
    var inicio := g.offset[actual];
    var fin := g.offset[actual + 1];
    for i := inicio to fin
      invariant pq.Valid()
      invariant Perezoso(g, origen, anterior[..], distancia[..], sello', t', pq.Contents())
      invariant Anclado(anterior[..], actual, origen)
    {
      AristaEn(g, actual, i);
      sello', t' := RelajarDijkstra(g, actual, g.vecinos[i], g.pesos[i], anterior, distancia, pq,
                                    origen, sello', t');
    }
  }

  /** One iteration of the main loop of `buscar_Dijkstra_grande`: extract, skip a visited
      node, visit, stop on the destination, otherwise relax every edge. */
  method PasoDijkstra(g: Grafo, origen: int, destino: int, visitado: array<bool>, anterior: array<int>,
                      distancia: array<Distancia>, pq: ColaPrioridadGrande,
                      ghost sello: seq<nat>, ghost t: nat)
    returns (encontrado: bool, ghost sello': seq<nat>, ghost t': nat)
    requires BienFormado(g) && PesosNoNegativos(g)
    requires pq.Valid() && !pq.Vacia()
    requires visitado.Length == g.n && anterior.Length == g.n && distancia.Length == g.n
    requires Perezoso(g, origen, anterior[..], distancia[..], sello, t, pq.Contents())
    modifies visitado, anterior, distancia, pq, pq.datos
    ensures pq.Valid()
    ensures Perezoso(g, origen, anterior[..], distancia[..], sello', t', pq.Contents())
    ensures !encontrado ==>
              Libres(visitado[..]) < old(Libres(visitado[..])) ||
              (visitado[..] == old(visitado[..]) && |pq.Contents()| < old(|pq.Contents()|))
  {
    sello', t' := sello, t;
    var actual, nuevo := ExtraerVisitar(g, origen, visitado, pq, anterior[..], distancia[..], sello, t);
    if !nuevo {
      return false, sello', t';
    }
    if actual == destino {
      return true, sello', t';
    }
    sello', t' := ExpandirDijkstra(g, actual, anterior, distancia, pq, origen, sello, t);
    encontrado := false;
  }

  /** The main loop of `buscar_Dijkstra_grande`. */
  method BucleDijkstra(g: Grafo, origen: int, destino: int, visitado: array<bool>, anterior: array<int>,
                       distancia: array<Distancia>, pq: ColaPrioridadGrande,
                       ghost sello: seq<nat>, ghost t: nat)
    returns (encontrado: bool, ghost sello': seq<nat>, ghost t': nat)
    requires BienFormado(g) && PesosNoNegativos(g) && pq.Valid()
    requires visitado.Length == g.n && anterior.Length == g.n && distancia.Length == g.n
    requires Perezoso(g, origen, anterior[..], distancia[..], sello, t, pq.Contents())
    modifies visitado, anterior, distancia, pq, pq.datos
    ensures pq.Valid()
    ensures Perezoso(g, origen, anterior[..], distancia[..], sello', t', pq.Contents())
  {
    sello', t' := sello, t;
    encontrado := false;
    while !pq.Vacia() && !encontrado
      invariant pq.Valid()
      invariant Perezoso(g, origen, anterior[..], distancia[..], sello', t', pq.Contents())
      decreases !encontrado, Libres(visitado[..]), |pq.Contents()|
    {
      encontrado, sello', t' := PasoDijkstra(g, origen, destino, visitado, anterior, distancia, pq,
                                             sello', t');
    }
  }

  /** `buscar_Dijkstra_grande` on the graph view: every distance infinite but the origin's,
      and a path rebuilt only when the destination was reached and has a predecessor. */
  method DijkstraGrande(g: Grafo, origen: int, destino: int, camino: array<int>) returns (largo: int)
    requires BienFormado(g) && PesosNoNegativos(g)
    requires 0 <= origen < g.n && 0 <= destino < g.n && camino.Length >= g.n
    modifies camino
    ensures 0 <= largo <= g.n
    ensures largo > 0 ==> CaminoDe(g, camino[..largo], origen, destino) && SinRepetir(camino[..largo])
    ensures origen == destino ==> largo == 0
  {
    var visitado, anterior, pq := IniciarPerezoso(g.n, origen, 0);
    var distancia := new Distancia[g.n](_ => Infinita);
    distancia[origen] := Finita(0);
    PerezosoInicial(g, origen, anterior[..], distancia[..], 0);
    var encontrado;
    ghost var sello: seq<nat>, t: nat;
    encontrado, sello, t := BucleDijkstra(g, origen, destino, visitado, anterior, distancia, pq,
                                          seq(g.n, _ => 0), 1);

    largo := 0;
    if encontrado && anterior[destino] != -1 {
      RangoDistanciaDesciende(anterior[..], distancia[..], sello, t);
      largo := Reconstruir(g, anterior, RangoDistancia(distancia[..], sello, t), origen, destino, camino);
    }
  }

  /** `buscar_Dijkstra_grande`: no path without a graph. */
  method BuscarDijkstraGrande(grafo: GrafoGrande?, origen: int, destino: int, camino: array<int>)
    returns (largo: int)
    requires grafo != null ==> Admisible(grafo, origen, destino) && camino.Length >= MAX_NODES_LARGE
    modifies camino
    ensures 0 <= largo <= camino.Length
    ensures grafo == null ==> largo == 0 && camino[..] == old(camino[..])
    ensures largo > 0 ==>
              grafo != null && CaminoDe(grafo.VistaCompleta(), camino[..largo], origen, destino) &&
              SinRepetir(camino[..largo])
    ensures origen == destino ==> largo == 0
  {
    if grafo == null {
      return 0;
    }
    largo := DijkstraGrande(grafo.VistaCompleta(), origen, destino, camino);
  }

  // A*

  /** One edge in the inner loop of `buscar_AStar_grande`: when the cost through `actual`
      is strictly smaller it replaces `vecino`'s g-score and predecessor, visited or not,
      the f-score becomes that cost plus `h(vecino, destino)`, and `vecino` is inserted
      keyed by the f-score. */
  method RelajarAStar(ghost g: Grafo, h: (int, int) -> int, destino: int, actual: int, vecino: int, peso: int,
                      anterior: array<int>, costoG: array<Distancia>, costoF: array<Distancia>,
                      pq: ColaPrioridadGrande, ghost origen: int, ghost sello: seq<nat>, ghost t: nat)
    returns (ghost sello': seq<nat>, ghost t': nat)
    requires pq.Valid() && costoG.Length == anterior.Length && costoF != costoG && peso >= 0
    requires Perezoso(g, origen, anterior[..], costoG[..], sello, t, pq.Contents())
    requires 0 <= actual < anterior.Length && Anclado(anterior[..], actual, origen)
    requires Arista(g, actual, vecino) && 0 <= vecino < anterior.Length && costoF.Length == anterior.Length
    modifies anterior, costoG, costoF, pq, pq.datos
    ensures pq.Valid()
    ensures Perezoso(g, origen, anterior[..], costoG[..], sello', t', pq.Contents())
    ensures Anclado(anterior[..], actual, origen)
    ensures var nuevo := Sumar(old(costoG[actual]), peso);
            if Menor(nuevo, old(costoG[vecino])) then
              && costoG[..] == old(costoG[..])[vecino := nuevo]
              && costoF[..] == old(costoF[..])[vecino := Finita(nuevo.valor + h(vecino, destino))]
              && anterior[..] == old(anterior[..])[vecino := actual]
            else
              costoG[..] == old(costoG[..]) && costoF[..] == old(costoF[..]) &&
              anterior[..] == old(anterior[..])
  {
    sello', t' := sello, t;
    var nuevo_g := Sumar(costoG[actual], peso);
    if Menor(nuevo_g, costoG[vecino]) {
      ghost var g0 := costoG[..];
      assert nuevo_g == Finita(nuevo_g.valor);
      Puntuar(costoG, costoF, vecino, nuevo_g, Finita(nuevo_g.valor + h(vecino, destino)));
      ghost var d';
      d', sello', t' := EnlazarPerezoso(g, actual, vecino, nuevo_g.valor, costoF[vecino].valor,
                                        anterior, pq, origen, g0, sello, t);
      assert d' == costoG[..];
    }
  }

  /** The score updates of `RelajarAStar`. */
  method Puntuar(costoG: array<Distancia>, costoF: array<Distancia>, vecino: int, nuevo_g: Distancia,
                 nuevo_f: Distancia)
    requires costoF != costoG && 0 <= vecino < costoG.Length && 0 <= vecino < costoF.Length
    modifies costoG, costoF
    ensures costoG[..] == old(costoG[..])[vecino := nuevo_g]
    ensures costoF[..] == old(costoF[..])[vecino := nuevo_f]
  {
    costoG[vecino] := nuevo_g;
    costoF[vecino] := nuevo_f;
  }

  /** The inner loop of `buscar_AStar_grande` over `actual`'s slice. */
  method ExpandirAStar(g: Grafo, h: (int, int) -> int, destino: int, actual: int, anterior: array<int>,
                       costoG: array<Distancia>, costoF: array<Distancia>, pq: ColaPrioridadGrande,
                       ghost origen: int, ghost sello: seq<nat>, ghost t: nat)
    returns (ghost sello': seq<nat>, ghost t': nat)
    requires BienFormado(g) && PesosNoNegativos(g) && 0 <= actual < g.n
    requires pq.Valid() && anterior.Length == g.n && costoG.Length == g.n && costoF.Length == g.n
    requires costoF != costoG
    requires Perezoso(g, origen, anterior[..], costoG[..], sello, t, pq.Contents())
    requires Anclado(anterior[..], actual, origen)
    modifies anterior, costoG, costoF, pq, pq.datos
    ensures pq.Valid()
    ensures Perezoso(g, origen, anterior[..], costoG[..], sello', t', pq.Contents())
  {
    sello', t' := sello, t;
    TramoDe(g, actual);
    var inicio := g.offset[actual];
    var fin := g.offset[actual + 1];
    for i := inicio to fin
      invariant pq.Valid()
      invariant Perezoso(g, origen, anterior[..], costoG[..], sello', t', pq.Contents())
      invariant Anclado(anterior[..], actual, origen)
    {
      AristaEn(g, actual, i);
      sello', t' := RelajarAStar(g, h, destino, actual, g.vecinos[i], g.pesos[i], anterior, costoG, costoF,
                                 pq, origen, sello', t');
    }
  }

  /** One iteration of the main loop of `buscar_AStar_grande`.  Until the origin is
      visited the heap holds only origin entries, so the first iteration visits it. */
  method PasoAStar(g: Grafo, h: (int, int) -> int, origen: int, destino: int, visitado: array<bool>,
                   anterior: array<int>, costoG: array<Distancia>, costoF: array<Distancia>,
                   pq: ColaPrioridadGrande, ghost sello: seq<nat>, ghost t: nat)
    returns (encontrado: bool, ghost sello': seq<nat>, ghost t': nat)
    requires BienFormado(g) && PesosNoNegativos(g) && 0 <= origen < g.n
    requires pq.Valid() && !pq.Vacia() && costoF != costoG
    requires visitado.Length == g.n && anterior.Length == g.n && costoG.Length == g.n && costoF.Length == g.n
    requires Perezoso(g, origen, anterior[..], costoG[..], sello, t, pq.Contents())
    requires visitado[origen] || forall e :: e in pq.Contents() ==> e.id == origen
    modifies visitado, anterior, costoG, costoF, pq, pq.datos
    ensures pq.Valid()
    ensures Perezoso(g, origen, anterior[..], costoG[..], sello', t', pq.Contents())
    ensures visitado[origen]
    ensures encontrado ==> Anclado(anterior[..], destino, origen)
    ensures old(!visitado[origen]) && origen == destino ==> encontrado
    ensures !encontrado ==>
              Libres(visitado[..]) < old(Libres(visitado[..])) ||
              (visitado[..] == old(visitado[..]) && |pq.Contents()| < old(|pq.Contents()|))
  {
    sello', t' := sello, t;
    var actual, nuevo := ExtraerVisitar(g, origen, visitado, pq, anterior[..], costoG[..], sello, t);
    if !nuevo {
      return false, sello', t';
    }
    if actual == destino {
      return true, sello', t';
    }
    sello', t' := ExpandirAStar(g, h, destino, actual, anterior, costoG, costoF, pq, origen, sello, t);
    encontrado := false;
  }

  /** The main loop of `buscar_AStar_grande`. */
  method BucleAStar(g: Grafo, h: (int, int) -> int, origen: int, destino: int, visitado: array<bool>,
                    anterior: array<int>, costoG: array<Distancia>, costoF: array<Distancia>,
                    pq: ColaPrioridadGrande, ghost sello: seq<nat>, ghost t: nat)
    returns (encontrado: bool, ghost sello': seq<nat>, ghost t': nat)
    requires BienFormado(g) && PesosNoNegativos(g) && 0 <= origen < g.n
    requires pq.Valid() && costoF != costoG
    requires visitado.Length == g.n && anterior.Length == g.n && costoG.Length == g.n && costoF.Length == g.n
    requires Perezoso(g, origen, anterior[..], costoG[..], sello, t, pq.Contents())
    requires !visitado[origen] && pq.Contents() != multiset{}
    requires forall e :: e in pq.Contents() ==> e.id == origen
    modifies visitado, anterior, costoG, costoF, pq, pq.datos
    ensures pq.Valid()
    ensures Perezoso(g, origen, anterior[..], costoG[..], sello', t', pq.Contents())
    ensures encontrado ==> Anclado(anterior[..], destino, origen)
    ensures origen == destino ==> encontrado
  {
    sello', t' := sello, t;
    encontrado := false;
    while !pq.Vacia() && !encontrado
      invariant pq.Valid()
      invariant Perezoso(g, origen, anterior[..], costoG[..], sello', t', pq.Contents())
      invariant visitado[origen] || forall e :: e in pq.Contents() ==> e.id == origen
      invariant origen == destino ==> encontrado || (!visitado[origen] && pq.Contents() != multiset{})
      invariant encontrado ==> Anclado(anterior[..], destino, origen)
      decreases !encontrado, Libres(visitado[..]), |pq.Contents()|
    {
      encontrado, sello', t' := PasoAStar(g, h, origen, destino, visitado, anterior, costoG, costoF, pq,
                                          sello', t');
    }
  }

  /** `buscar_AStar_grande` on the graph view: every score infinite but the origin's
      (g-score 0, f-score `h(origen, destino)`), and a path rebuilt whenever the
      destination was reached. */
  method AStarGrande(g: Grafo, h: (int, int) -> int, origen: int, destino: int, camino: array<int>)
    returns (largo: int)
    requires BienFormado(g) && PesosNoNegativos(g)
    requires 0 <= origen < g.n && 0 <= destino < g.n && camino.Length >= g.n
    modifies camino
    ensures 0 <= largo <= g.n
    ensures largo > 0 ==> CaminoDe(g, camino[..largo], origen, destino) && SinRepetir(camino[..largo])
    ensures origen == destino ==> camino[..largo] == [origen]
  {
    var visitado, anterior, pq := IniciarPerezoso(g.n, origen, h(origen, destino));
    var costoG := new Distancia[g.n](_ => Infinita);
    var costoF := new Distancia[g.n](_ => Infinita);
    costoG[origen] := Finita(0);
    costoF[origen] := Finita(h(origen, destino));
    PerezosoInicial(g, origen, anterior[..], costoG[..], h(origen, destino));
    var encontrado;
    ghost var sello: seq<nat>, t: nat;
    encontrado, sello, t := BucleAStar(g, h, origen, destino, visitado, anterior, costoG, costoF, pq,
                                       seq(g.n, _ => 0), 1);

    largo := 0;
    if encontrado {
      RangoDistanciaDesciende(anterior[..], costoG[..], sello, t);
      largo := Reconstruir(g, anterior, RangoDistancia(costoG[..], sello, t), origen, destino, camino);
    }
  }

  /** `buscar_AStar_grande`: no path without a graph. */
  method BuscarAStarGrande(grafo: GrafoGrande?, h: (int, int) -> int, origen: int, destino: int,
                           camino: array<int>)
    returns (largo: int)
    requires grafo != null ==> Admisible(grafo, origen, destino) && camino.Length >= MAX_NODES_LARGE
    modifies camino
    ensures 0 <= largo <= camino.Length
    ensures grafo == null ==> largo == 0 && camino[..] == old(camino[..])
    ensures largo > 0 ==>
              grafo != null && CaminoDe(grafo.VistaCompleta(), camino[..largo], origen, destino) &&
              SinRepetir(camino[..largo])
    ensures grafo != null && origen == destino ==> camino[..largo] == [origen]
  {
    if grafo == null {
      return 0;
    }
    largo := AStarGrande(grafo.VistaCompleta(), h, origen, destino, camino);
  }
}
