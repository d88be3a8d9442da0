/** `buscar_BFS` of `bfs.cpp`, the breadth-first search over the small compiled-in graph
    (`OFFSET`, `NEIGHBOR`, `NODE_COUNT`, here the graph value `g`).  It works like
    `buscar_BFS_grande` but with the `ColaInt` ring of `TAM_MAX` slots, no check of the
    endpoints, and a reconstruction that always runs: an unreached destination yields the
    one-node buffer `[destino]`. */
module Bfs {
  import opened Csr
  import opened Caminos
  import opened Estructuras
  import AlgoritmosGrandes

  /** One step of the inner loop on an unvisited neighbour: it is enqueued (if the ring has
      room), marked visited and given `actual` as predecessor.  The ring always has room
      when the graph has fewer nodes than `TAM_MAX`. */
  method DescubrirBFS(ghost g: Grafo, actual: int, vecino: int, visitado: array<bool>,
                      anterior: array<int>, cola: ColaInt, ghost origen: int, ghost destino: int,
                      ghost orden: seq<nat>, ghost cnt: nat, ghost abiertos: set<int>)
    returns (ghost orden': seq<nat>, ghost cnt': nat)
    requires cola.Valid() && cola.datos != anterior
    requires AlgoritmosGrandes.EstadoBFS(g, origen, visitado[..], anterior[..], cola.Contents(), orden, cnt)
    requires 0 <= actual < visitado.Length && visitado[actual] && Arista(g, actual, vecino)
    requires 0 <= vecino < visitado.Length && !visitado[vecino]
    modifies visitado, anterior, cola, cola.datos
    ensures cola.Valid()
    ensures AlgoritmosGrandes.EstadoBFS(g, origen, visitado[..], anterior[..], cola.Contents(), orden', cnt')
    ensures visitado[..] == old(visitado[..])[vecino := true]
    ensures anterior[..] == old(anterior[..])[vecino := actual]
    ensures Libres(visitado[..]) + |cola.Contents()| <= old(Libres(visitado[..]) + |cola.Contents()|)
    ensures g.n < TAM_MAX ==> cola.Contents() == old(cola.Contents()) + [vecino]
    ensures g.n < TAM_MAX && AlgoritmosGrandes.CompletoBFS(g, destino, old(visitado[..]), old(cola.Contents()), abiertos) ==>
              AlgoritmosGrandes.CompletoBFS(g, destino, visitado[..], cola.Contents(), abiertos)
  {
    ghost var antes := cola.Contents();
    ghost var vis0 := visitado[..];
    ghost var ant0 := anterior[..];
    Visitar(vis0, vecino);
    cola.Encolar(vecino);
    assert visitado[..] == vis0 && anterior[..] == ant0;
    AlgoritmosGrandes.MarcarBFS(g, origen, destino, vis0, ant0, antes, orden, cnt, actual, vecino,
                                cola.Contents(), abiertos);
    visitado[vecino] := true;
    anterior[vecino] := actual;
    assert visitado[..] == vis0[vecino := true];
    assert anterior[..] == ant0[vecino := actual];
    orden', cnt' := orden[vecino := cnt], cnt + 1;
  }

  /** The inner loop of `buscar_BFS`: afterwards every neighbour of `actual` is visited, so
      `actual` is no longer open. */
  method ExpandirBFS(g: Grafo, actual: int, visitado: array<bool>, anterior: array<int>,
                     cola: ColaInt, ghost origen: int, ghost destino: int, ghost orden: seq<nat>, ghost cnt: nat)
    returns (ghost orden': seq<nat>, ghost cnt': nat)
    requires BienFormado(g) && 0 <= actual < g.n
    requires cola.Valid() && cola.datos != anterior
    requires AlgoritmosGrandes.EstadoBFS(g, origen, visitado[..], anterior[..], cola.Contents(), orden, cnt)
    requires visitado[actual]
    modifies visitado, anterior, cola, cola.datos
    ensures cola.Valid()
    ensures AlgoritmosGrandes.EstadoBFS(g, origen, visitado[..], anterior[..], cola.Contents(), orden', cnt')
    ensures Libres(visitado[..]) + |cola.Contents()| <= old(Libres(visitado[..]) + |cola.Contents()|)
    ensures Expandido(g, actual, visitado[..], {})
    ensures g.n < TAM_MAX && actual != destino &&
            AlgoritmosGrandes.CompletoBFS(g, destino, old(visitado[..]), old(cola.Contents()), {actual}) ==>
              AlgoritmosGrandes.CompletoBFS(g, destino, visitado[..], cola.Contents(), {})
  {
    ghost var medida := Libres(visitado[..]) + |cola.Contents()|;
    ghost var completo := g.n < TAM_MAX && AlgoritmosGrandes.CompletoBFS(g, destino, visitado[..], cola.Contents(), {actual});
    TramoDe(g, actual);
    orden', cnt' := orden, cnt;
    for i := g.offset[actual] to g.offset[actual + 1]
      invariant cola.Valid() && visitado[actual]
      invariant AlgoritmosGrandes.EstadoBFS(g, origen, visitado[..], anterior[..], cola.Contents(), orden', cnt')
      invariant Libres(visitado[..]) + |cola.Contents()| <= medida
      invariant Cubiertos(g, g.offset[actual], i, visitado[..], {})
      invariant completo ==> AlgoritmosGrandes.CompletoBFS(g, destino, visitado[..], cola.Contents(), {actual})
    {
      var vecino := g.vecinos[i];
      AristaEn(g, actual, i);
      ghost var vis0 := visitado[..];
      if !visitado[vecino] {
        orden', cnt' := DescubrirBFS(g, actual, vecino, visitado, anterior, cola, origen, destino,
                                     orden', cnt', {actual});
      }
      Cubrir(g, g.offset[actual], i, vis0, {}, visitado[..], {});
    }
    if completo && actual != destino {
      AlgoritmosGrandes.CerrarBFS(g, destino, visitado[..], cola.Contents(), actual);
    }
  }

  /** The main loop of `buscar_BFS`: dequeue, stop on the destination, otherwise expand.
      While the ring never overflows, the loop ends with the destination visited or with
      every node reachable from the origin visited. */
  method BucleBFS(g: Grafo, origen: int, destino: int, visitado: array<bool>,
                  anterior: array<int>, cola: ColaInt, ghost orden: seq<nat>, ghost cnt: nat)
    returns (ghost orden': seq<nat>, ghost cnt': nat)
    requires BienFormado(g) && 0 <= destino < g.n
    requires cola.Valid() && cola.datos != anterior
    requires AlgoritmosGrandes.EstadoBFS(g, origen, visitado[..], anterior[..], cola.Contents(), orden, cnt)
    requires g.n < TAM_MAX ==> AlgoritmosGrandes.CompletoBFS(g, destino, visitado[..], cola.Contents(), {})
    modifies visitado, anterior, cola, cola.datos
    ensures cola.Valid()
    ensures AlgoritmosGrandes.EstadoBFS(g, origen, visitado[..], anterior[..], cola.Contents(), orden', cnt')
    ensures g.n < TAM_MAX ==> visitado[destino] || Frontera(g, visitado[..], {}, {})
  {
    orden', cnt' := orden, cnt;
    while !cola.Vacia()
      invariant cola.Valid() && visitado.Length == g.n
      invariant AlgoritmosGrandes.EstadoBFS(g, origen, visitado[..], anterior[..], cola.Contents(), orden', cnt')
      invariant g.n < TAM_MAX ==> AlgoritmosGrandes.CompletoBFS(g, destino, visitado[..], cola.Contents(), {})
      decreases Libres(visitado[..]) + |cola.Contents()|
    {
      ghost var antes := cola.Contents();
      var actual := cola.Desencolar();
      if actual == destino {
        break;
      }
      if g.n < TAM_MAX {
        AlgoritmosGrandes.DesencolarBFS(g, destino, visitado[..], antes);
      }
      orden', cnt' := ExpandirBFS(g, actual, visitado, anterior, cola, origen, destino, orden', cnt');
    }
    if g.n < TAM_MAX && !visitado[destino] {
      assert Elementos(cola.Contents()) == {};
    }
  }

  /** The set-up of `buscar_BFS`: only the origin visited and enqueued, no predecessors. */
  method IniciarBFS(g: Grafo, origen: int, ghost destino: int)
    returns (visitado: array<bool>, anterior: array<int>, cola: ColaInt, ghost orden: seq<nat>)
    requires 0 <= origen < g.n && 0 <= destino < g.n
    ensures fresh(visitado) && fresh(anterior) && fresh(cola) && fresh(cola.datos)
    ensures visitado.Length == g.n && cola.Valid() && cola.datos != anterior
    ensures AlgoritmosGrandes.EstadoBFS(g, origen, visitado[..], anterior[..], cola.Contents(), orden, 1)
    ensures AlgoritmosGrandes.CompletoBFS(g, destino, visitado[..], cola.Contents(), {})
  {
    visitado := new bool[g.n](_ => false);
    anterior := NuevoAnterior(g.n);
    orden := seq(g.n, _ => 0);
    cola := new ColaInt();
    cola.Encolar(origen);
    AlgoritmosGrandes.EstadoInicialBFS(g, origen, destino, visitado[..], anterior[..], orden);
    ghost var vis0 := visitado[..];
    visitado[origen] := true;
    assert visitado[..] == vis0[origen := true];
    orden := orden[origen := 0];
  }

  /** `buscar_BFS`: the buffer always receives the predecessor chain of the destination,
      reversed.  It is a repetition-free walk from the origin when the search reached the
      destination, and just `[destino]` otherwise; while the graph has fewer nodes than
      `TAM_MAX` the search reaches the destination exactly when it is reachable. */
  method BuscarBFS(g: Grafo, origen: int, destino: int, camino: array<int>) returns (largo: int)
    requires BienFormado(g) && 0 <= origen < g.n && 0 <= destino < g.n && camino.Length >= g.n
    modifies camino
    ensures 1 <= largo <= g.n && SinRepetir(camino[..largo])
    ensures CaminoDe(g, camino[..largo], origen, destino) || camino[..largo] == [destino]
    ensures origen == destino ==> camino[..largo] == [origen]
    ensures !Alcanzable(g, origen, destino) ==> camino[..largo] == [destino]
    ensures g.n < TAM_MAX && Alcanzable(g, origen, destino) ==> CaminoDe(g, camino[..largo], origen, destino)
  {
    var visitado, anterior, cola, orden := IniciarBFS(g, origen, destino);
    ghost var cnt: nat;
    orden, cnt := BucleBFS(g, origen, destino, visitado, anterior, cola, orden, 1);
    if g.n < TAM_MAX && Alcanzable(g, origen, destino) && !visitado[destino] {
      Cerradura(g, visitado[..], origen, destino);
    }
    RecorridoRango(g, anterior[..], visitado[..], orden, cnt, origen, destino);
    largo := ReconstruirRecorrido(g, anterior, visitado[..], orden, cnt, origen, destino, camino);
  }
}
