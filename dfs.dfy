/** `buscar_DFS` of `dfs.cpp`: a recursive depth-first search over the small compiled-in
    graph.  The source keeps the flag `encontrado` in a global variable; here it is passed
    in and returned.  A pending frame keeps scanning its neighbours after the destination
    is found: each unvisited neighbour still gets a predecessor, but the call made on it
    returns at once, so it is never visited.  The path is rebuilt only when the destination
    was found. */
module Dfs {
  import opened Csr
  import opened Caminos

  /** `dfs(actual, ...)`: nothing happens once the destination is found; otherwise
      `actual` is visited, the search stops there if it is the destination, and else
      recurses into every neighbour still unvisited when its turn comes.  `abiertos` holds
      the nodes whose frames are still on the call stack: every other visited node has all
      its neighbours visited, and a call that does not find the destination leaves it so. */
  method Dfs(g: Grafo, actual: int, destino: int, visitado: array<bool>, anterior: array<int>,
             encontrado: bool, ghost origen: int, ghost orden: seq<nat>, ghost cnt: nat,
             ghost abiertos: set<int>)
    returns (encontrado': bool, ghost orden': seq<nat>, ghost cnt': nat)
    requires BienFormado(g) && 0 <= destino < g.n && visitado.Length == g.n
    requires Recorrido(g, anterior[..], visitado[..], orden, cnt, origen)
    requires 0 <= actual < g.n && !visitado[actual] && Anclado(anterior[..], actual, origen)
    requires visitado[origen] || (actual == origen && !encontrado)
    requires encontrado ==> visitado[destino]
    requires !encontrado ==> !visitado[destino] && Frontera(g, visitado[..], {}, abiertos)
    modifies visitado, anterior
    ensures Recorrido(g, anterior[..], visitado[..], orden', cnt', origen) && visitado[origen]
    ensures Crece(old(visitado[..]), visitado[..]) && Libres(visitado[..]) <= old(Libres(visitado[..]))
    ensures encontrado ==> encontrado' && visitado[..] == old(visitado[..]) && anterior[..] == old(anterior[..])
    ensures !encontrado ==> visitado[actual]
    ensures encontrado' ==> visitado[destino]
    ensures actual == destino ==> encontrado'
    ensures !encontrado' ==> !visitado[destino] && Frontera(g, visitado[..], {}, abiertos)
    decreases Libres(visitado[..]), 0
  {
    orden', cnt' := orden, cnt;
    if encontrado {
      return true, orden', cnt';
    }
    ghost var vis0 := visitado[..];
    visitado[actual] := true;
    assert visitado[..] == vis0[actual := true];
    RecorridoVisitar(g, anterior[..], vis0, orden, cnt, origen, actual);
    orden', cnt' := orden[actual := cnt], cnt + 1;
    if actual == destino {
      return true, orden', cnt';
    }
    encontrado', orden', cnt' := ExpandirDfs(g, actual, destino, visitado, anterior, origen, orden', cnt',
                                             abiertos);
    if !encontrado' {
      Cerrar(g, visitado[..], {}, abiertos, actual);
    }
  }

  /** The neighbour loop of `dfs` for the visited `actual`: an unvisited neighbour gets
      `actual` as predecessor and the recursive call, found or not.  Unless the destination
      was found, every neighbour of `actual` ends up visited. */
  method ExpandirDfs(g: Grafo, actual: int, destino: int, visitado: array<bool>, anterior: array<int>,
                     ghost origen: int, ghost orden: seq<nat>, ghost cnt: nat, ghost abiertos: set<int>)
    returns (encontrado: bool, ghost orden': seq<nat>, ghost cnt': nat)
    requires BienFormado(g) && 0 <= destino < g.n && visitado.Length == g.n
    requires Recorrido(g, anterior[..], visitado[..], orden, cnt, origen)
    requires 0 <= actual < g.n && visitado[actual] && visitado[origen]
    requires !visitado[destino] && Frontera(g, visitado[..], {}, abiertos + {actual})
    modifies visitado, anterior
    ensures Recorrido(g, anterior[..], visitado[..], orden', cnt', origen)
    ensures Crece(old(visitado[..]), visitado[..]) && Libres(visitado[..]) <= old(Libres(visitado[..]))
    ensures encontrado ==> visitado[destino]
    ensures !encontrado ==>
              && !visitado[destino] && Frontera(g, visitado[..], {}, abiertos + {actual})
              && Expandido(g, actual, visitado[..], {})
    decreases Libres(visitado[..]), 1
  {
    ghost var libres := Libres(visitado[..]);
    ghost var vis0 := visitado[..];
    orden', cnt' := orden, cnt;
    encontrado := false;
    TramoDe(g, actual);
    for i := g.offset[actual] to g.offset[actual + 1]
      invariant Recorrido(g, anterior[..], visitado[..], orden', cnt', origen)
      invariant Crece(vis0, visitado[..]) && Libres(visitado[..]) <= libres
      invariant visitado[actual] && visitado[origen]
      invariant encontrado ==> visitado[destino]
      invariant !encontrado ==>
                  && !visitado[destino] && Frontera(g, visitado[..], {}, abiertos + {actual})
                  && Cubiertos(g, g.offset[actual], i, visitado[..], {})
    {
      var vecino := g.vecinos[i];
      AristaEn(g, actual, i);
      ghost var vis1 := visitado[..];
      if !visitado[vecino] {
        ghost var ant0 := anterior[..];
        RecorridoEnlazar(g, ant0, vis1, orden', cnt', origen, actual, vecino);
        anterior[vecino] := actual;
        assert anterior[..] == ant0[vecino := actual];
        encontrado, orden', cnt' := Dfs(g, vecino, destino, visitado, anterior, encontrado,
                                        origen, orden', cnt', abiertos + {actual});
      }
      if !encontrado {
        Cubrir(g, g.offset[actual], i, vis1, {}, visitado[..], {});
      }
    }
  }

  /** `buscar_DFS`: the search from the origin, then, only if the destination was found,
      the reversed predecessor chain of the destination. */
  method BuscarDFS(g: Grafo, origen: int, destino: int, camino: array<int>) returns (largo: int)
    requires BienFormado(g) && 0 <= origen < g.n && 0 <= destino < g.n && camino.Length >= g.n
    modifies camino
    ensures 0 <= largo <= g.n
    ensures largo > 0 ==> CaminoDe(g, camino[..largo], origen, destino) && SinRepetir(camino[..largo])
    ensures origen == destino ==> camino[..largo] == [origen]
    ensures largo > 0 <==> Alcanzable(g, origen, destino)
  {
    var visitado := new bool[g.n](_ => false);
    var anterior := NuevoAnterior(g.n);
    ghost var orden: seq<nat> := seq(g.n, _ => 0);
    RecorridoInicial(g, anterior[..], visitado[..], orden, origen);
    var encontrado;
    ghost var cnt: nat;
    encontrado, orden, cnt := Dfs(g, origen, destino, visitado, anterior, false, origen, orden, 0, {});
    largo := 0;
    if !encontrado {
      Inalcanzable(g, visitado[..], origen, destino);
      return;
    }
    RecorridoRango(g, anterior[..], visitado[..], orden, cnt, origen, destino);
    largo := ReconstruirRecorrido(g, anterior, visitado[..], orden, cnt, origen, destino, camino);
  }
}
