/** Predecessor arrays and the path reconstruction shared by every search: the chain
    `destino, anterior[destino], anterior[anterior[destino]], ...` is followed until -1 into
    the path buffer, and the buffer prefix is then reversed in place.

    The chain is finite because each search keeps a ghost rank that strictly decreases from
    a node to its predecessor (`Descendente`); it ends at `origen` and follows graph edges
    because each search keeps a predecessor tree rooted at `origen` (`Arbol`). */
module Caminos {
  import opened Csr

  /** `v` is the origin or already has a predecessor. */
  ghost predicate Anclado(ant: seq<int>, v: int, origen: int)
  {
    v == origen || (0 <= v < |ant| && ant[v] != -1)
  }

  /** `v`'s predecessor link, if any, is a graph edge whose tail is anchored. */
  ghost predicate Enlace(g: Grafo, ant: seq<int>, origen: int, v: int)
  {
    0 <= v < |ant| && (ant[v] != -1 ==> Arista(g, ant[v], v) && Anclado(ant, ant[v], origen))
  }

  /** `ant` is a predecessor array over `g`'s nodes rooted at `origen`: the origin has no
      predecessor, and every predecessor link is a graph edge whose tail is anchored. */
  ghost predicate Arbol(g: Grafo, ant: seq<int>, origen: int)
  {
    |ant| == g.n && 0 <= origen < g.n && ant[origen] == -1 &&
    forall v :: 0 <= v < |ant| ==> Enlace(g, ant, origen, v)
  }

  /** The array every search starts from: `n` entries of -1. */
  lemma ArbolInicial(g: Grafo, ant: seq<int>, origen: int)
    requires |ant| == g.n && 0 <= origen < g.n
    requires forall v :: 0 <= v < |ant| ==> ant[v] == -1
    ensures Arbol(g, ant, origen)
  {
    forall v | 0 <= v < |ant|
      ensures Enlace(g, ant, origen, v)
    {
    }
  }

  /** Setting `anterior[v] := u` along an edge from an anchored `u` keeps the tree, and
      everything anchored before stays anchored. */
  lemma Enganchar(g: Grafo, ant: seq<int>, origen: int, v: int, u: int)
    requires Arbol(g, ant, origen) && 0 <= v < |ant| && v != origen
    requires Arista(g, u, v) && Anclado(ant, u, origen)
    ensures Arbol(g, ant[v := u], origen)
    ensures forall w :: Anclado(ant, w, origen) ==> Anclado(ant[v := u], w, origen)
  {
    var ant2 := ant[v := u];
    forall w | 0 <= w < |ant2|
      ensures Enlace(g, ant2, origen, w)
    {
      assert Enlace(g, ant, origen, w);
    }
  }

  /** A link of the tree, unfolded. */
  lemma EnlaceDe(g: Grafo, ant: seq<int>, origen: int, v: int)
    requires Arbol(g, ant, origen) && 0 <= v < |ant| && ant[v] != -1
    ensures Arista(g, ant[v], v) && Anclado(ant, ant[v], origen)
  {
    assert Enlace(g, ant, origen, v);
  }

  /** Every predecessor link goes to a node of strictly smaller rank. */
  ghost predicate Descendente(ant: seq<int>, rank: seq<nat>)
  {
    |rank| == |ant| &&
    forall v :: 0 <= v < |ant| && ant[v] != -1 ==> 0 <= ant[v] < |ant| && rank[ant[v]] < rank[v]
  }

  /** The predecessor chain from `v`: `v` first, then its predecessors, up to the first
      node whose predecessor is -1. */
  ghost function Atras(ant: seq<int>, rank: seq<nat>, v: int): (c: seq<int>)
    requires Descendente(ant, rank) && 0 <= v < |ant|
    ensures |c| > 0 && c[0] == v
    decreases rank[v]
  {
    if ant[v] == -1 then [v] else [v] + Atras(ant, rank, ant[v])
  }

  /** The reverse of a sequence, element by element. */
  function Invertida(s: seq<int>): (r: seq<int>)
    ensures |r| == |s|
    ensures forall k :: 0 <= k < |s| ==> r[k] == s[|s| - 1 - k]
  {
    if s == [] then [] else Invertida(s[1..]) + [s[0]]
  }

  /** Reversing twice gives the sequence back. */
  lemma InvertidaInvolucion(s: seq<int>)
    ensures Invertida(Invertida(s)) == s
  {
  }

  /** All of `v`'s chain lies in range and has rank at most `rank[v]`; the chain repeats
      no node. */
  lemma {:induction false} AtrasAcotado(ant: seq<int>, rank: seq<nat>, v: int)
    requires Descendente(ant, rank) && 0 <= v < |ant|
    ensures forall k :: 0 <= k < |Atras(ant, rank, v)| ==>
              0 <= Atras(ant, rank, v)[k] < |ant| && rank[Atras(ant, rank, v)[k]] <= rank[v]
    ensures SinRepetir(Atras(ant, rank, v))
    decreases rank[v]
  {
    var c := Atras(ant, rank, v);
    if ant[v] != -1 {
      var u := ant[v];
      var resto := Atras(ant, rank, u);
      AtrasAcotado(ant, rank, u);
      assert c == [v] + resto;
      forall i, j | 0 <= i < j < |c|
        ensures c[i] != c[j]
      {
        if i == 0 {
          assert rank[c[j]] <= rank[u] < rank[v];
        } else {
          assert c[i] == resto[i - 1] && c[j] == resto[j - 1];
        }
      }
    }
  }

  /** Reversal preserves the absence of repeated nodes. */
  lemma SinRepetirInvertida(s: seq<int>)
    requires SinRepetir(s)
    ensures SinRepetir(Invertida(s))
  {
    var r := Invertida(s);
    forall i, j | 0 <= i < j < |r|
      ensures r[i] != r[j]
    {
      assert r[i] == s[|s| - 1 - i] && r[j] == s[|s| - 1 - j];
    }
  }

  /** In a predecessor tree, the reversed chain of an anchored node is a walk from the
      origin to that node. */
  lemma {:induction false} AtrasEsCamino(g: Grafo, ant: seq<int>, rank: seq<nat>, origen: int, v: int)
    requires Arbol(g, ant, origen) && Descendente(ant, rank)
    requires 0 <= v < |ant| && Anclado(ant, v, origen)
    ensures CaminoDe(g, Invertida(Atras(ant, rank, v)), origen, v)
    decreases rank[v]
  {
    if ant[v] != -1 {
      var u := ant[v];
      EnlaceDe(g, ant, origen, v);
      AtrasEsCamino(g, ant, rank, origen, u);
      var resto := Atras(ant, rank, u);
      assert Atras(ant, rank, v) == [v] + resto;
      assert Invertida([v] + resto) == Invertida(resto) + [v] by {
        assert ([v] + resto)[1..] == resto;
      }
      Extender(g, Invertida(resto), origen, u, v);
    }
  }

  /** The conclusions every search draws about its reconstructed buffer. */
  lemma Reconstruccion(g: Grafo, ant: seq<int>, rank: seq<nat>, origen: int, destino: int)
    requires Arbol(g, ant, origen) && Descendente(ant, rank) && 0 <= destino < |ant|
    ensures |Atras(ant, rank, destino)| <= g.n
    ensures SinRepetir(Invertida(Atras(ant, rank, destino)))
    ensures Anclado(ant, destino, origen) ==>
              CaminoDe(g, Invertida(Atras(ant, rank, destino)), origen, destino)
    ensures !Anclado(ant, destino, origen) ==> Invertida(Atras(ant, rank, destino)) == [destino]
  {
    var c := Atras(ant, rank, destino);
    AtrasAcotado(ant, rank, destino);
    Palomar(c, g.n);
    SinRepetirInvertida(c);
    if Anclado(ant, destino, origen) {
      AtrasEsCamino(g, ant, rank, origen, destino);
    }
  }

  /** Node `v` under the visit-order invariant: when visited it has an order number below
      `cnt` and is anchored; its predecessor, if any, is visited, and earlier than `v`. */
  ghost predicate EnOrden(ant: seq<int>, vis: seq<bool>, orden: seq<nat>, cnt: nat, origen: int, v: int)
    requires |vis| == |ant| && |orden| == |ant| && 0 <= v < |ant|
  {
    (vis[v] ==> orden[v] < cnt && Anclado(ant, v, origen)) &&
    (ant[v] != -1 ==> 0 <= ant[v] < |ant| && vis[ant[v]] && (vis[v] ==> orden[ant[v]] < orden[v]))
  }

  /** The visit-order invariant of the searches that mark a node once: every visited node
      is anchored and numbered below `cnt`, and every predecessor was visited first. */
  ghost predicate OrdenVisita(ant: seq<int>, vis: seq<bool>, orden: seq<nat>, cnt: nat, origen: int)
  {
    |vis| == |ant| && |orden| == |ant| &&
    forall v :: 0 <= v < |ant| ==> EnOrden(ant, vis, orden, cnt, origen, v)
  }

  /** Before anything is visited the invariant holds for any numbering. */
  lemma OrdenInicial(ant: seq<int>, vis: seq<bool>, orden: seq<nat>, origen: int)
    requires |vis| == |ant| && |orden| == |ant|
    requires forall v :: 0 <= v < |ant| ==> ant[v] == -1 && !vis[v]
    ensures OrdenVisita(ant, vis, orden, 0, origen)
  {
    forall v | 0 <= v < |ant|
      ensures EnOrden(ant, vis, orden, 0, origen, v)
    {
    }
  }

  /** Rank from visit order: the order number when visited, `cnt` otherwise. */
  ghost function RangoVisita(vis: seq<bool>, orden: seq<nat>, cnt: nat): (rank: seq<nat>)
    requires |orden| == |vis|
    ensures |rank| == |vis|
    ensures forall v :: 0 <= v < |vis| ==> rank[v] == if vis[v] then orden[v] else cnt
  {
    seq(|vis|, v requires 0 <= v < |vis| => if vis[v] then orden[v] else cnt)
  }

  /** Linking an unvisited `v` to a visited `u` keeps the visit-order invariant. */
  lemma OrdenEnlazar(ant: seq<int>, vis: seq<bool>, orden: seq<nat>, cnt: nat, origen: int,
                     v: int, u: int)
    requires OrdenVisita(ant, vis, orden, cnt, origen)
    requires 0 <= v < |ant| && !vis[v] && 0 <= u < |ant| && vis[u]
    ensures OrdenVisita(ant[v := u], vis, orden, cnt, origen)
  {
    var ant2 := ant[v := u];
    forall w | 0 <= w < |ant|
      ensures EnOrden(ant2, vis, orden, cnt, origen, w)
    {
      assert EnOrden(ant, vis, orden, cnt, origen, w);
    }
  }

  /** Visiting an anchored `v` gives it the next order number, after its predecessor's. */
  lemma OrdenVisitar(ant: seq<int>, vis: seq<bool>, orden: seq<nat>, cnt: nat, origen: int, v: int)
    requires OrdenVisita(ant, vis, orden, cnt, origen)
    requires 0 <= v < |ant| && !vis[v] && Anclado(ant, v, origen)
    ensures OrdenVisita(ant, vis[v := true], orden[v := cnt], cnt + 1, origen)
  {
    var vis2, orden2, cnt2 := vis[v := true], orden[v := cnt], cnt + 1;
    forall w | 0 <= w < |ant|
      ensures EnOrden(ant, vis2, orden2, cnt2, origen, w)
    {
      assert EnOrden(ant, vis, orden, cnt, origen, w);
      if ant[w] != -1 {
        assert EnOrden(ant, vis, orden, cnt, origen, ant[w]);
      }
    }
  }

  /** One node of the invariant, unfolded. */
  lemma EnOrdenDe(ant: seq<int>, vis: seq<bool>, orden: seq<nat>, cnt: nat, origen: int, v: int)
    requires OrdenVisita(ant, vis, orden, cnt, origen) && 0 <= v < |ant|
    ensures vis[v] ==> orden[v] < cnt && Anclado(ant, v, origen)
    ensures ant[v] != -1 ==> 0 <= ant[v] < |ant| && vis[ant[v]] && (vis[v] ==> orden[ant[v]] < orden[v])
  {
    assert EnOrden(ant, vis, orden, cnt, origen, v);
  }

  /** The visit order is a rank that decreases along predecessor links. */
  lemma RangoVisitaDesciende(ant: seq<int>, vis: seq<bool>, orden: seq<nat>, cnt: nat, origen: int)
    requires OrdenVisita(ant, vis, orden, cnt, origen)
    ensures Descendente(ant, RangoVisita(vis, orden, cnt))
  {
    var rank := RangoVisita(vis, orden, cnt);
    forall v | 0 <= v < |ant| && ant[v] != -1
      ensures 0 <= ant[v] < |ant| && rank[ant[v]] < rank[v]
    {
      assert EnOrden(ant, vis, orden, cnt, origen, v);
      assert EnOrden(ant, vis, orden, cnt, origen, ant[v]);
    }
  }

  /** The number of unvisited nodes; it bounds how many expansions a search can still do. */
  function Libres(vis: seq<bool>): (r: nat)
    ensures r <= |vis|
    ensures r == 0 <==> forall v :: 0 <= v < |vis| ==> vis[v]
  {
    if vis == [] then 0 else (if vis[0] then 0 else 1) + Libres(vis[1..])
  }

  /** Visiting an unvisited node removes exactly one from `Libres`. */
  lemma {:induction false} Visitar(vis: seq<bool>, v: int)
    requires 0 <= v < |vis| && !vis[v]
    ensures Libres(vis[v := true]) == Libres(vis) - 1
  {
    if v > 0 {
      assert vis[v := true][1..] == vis[1..][v - 1 := true];
      Visitar(vis[1..], v - 1);
    } else {
      assert vis[v := true][1..] == vis[1..];
    }
  }

  /** The state every search that marks a node at most once keeps: a predecessor tree
      rooted at `origen` whose links respect the visit order. */
  ghost predicate Recorrido(g: Grafo, ant: seq<int>, vis: seq<bool>, orden: seq<nat>, cnt: nat, origen: int)
  {
    Arbol(g, ant, origen) && OrdenVisita(ant, vis, orden, cnt, origen)
  }

  /** Nothing visited and no predecessor set. */
  lemma RecorridoInicial(g: Grafo, ant: seq<int>, vis: seq<bool>, orden: seq<nat>, origen: int)
    requires |ant| == g.n && 0 <= origen < g.n && |vis| == |ant| && |orden| == |ant|
    requires forall v :: 0 <= v < |ant| ==> ant[v] == -1 && !vis[v]
    ensures Recorrido(g, ant, vis, orden, 0, origen)
  {
    ArbolInicial(g, ant, origen);
    OrdenInicial(ant, vis, orden, origen);
  }

  /** Giving the unvisited `v` the visited `u` as predecessor along an edge keeps the
      state, anchors `v`, and leaves every anchored node anchored. */
  lemma RecorridoEnlazar(g: Grafo, ant: seq<int>, vis: seq<bool>, orden: seq<nat>, cnt: nat,
                         origen: int, u: int, v: int)
    requires Recorrido(g, ant, vis, orden, cnt, origen)
    requires 0 <= u < |ant| && vis[u] && Arista(g, u, v) && 0 <= v < |ant| && !vis[v] && v != origen
    ensures Recorrido(g, ant[v := u], vis, orden, cnt, origen)
    ensures Anclado(ant[v := u], v, origen)
    ensures forall w :: Anclado(ant, w, origen) ==> Anclado(ant[v := u], w, origen)
  {
    EnOrdenDe(ant, vis, orden, cnt, origen, u);
    Enganchar(g, ant, origen, v, u);
    OrdenEnlazar(ant, vis, orden, cnt, origen, v, u);
  }

  /** Visiting an anchored, unvisited `v` keeps the state and frees one node fewer. */
  lemma RecorridoVisitar(g: Grafo, ant: seq<int>, vis: seq<bool>, orden: seq<nat>, cnt: nat,
                         origen: int, v: int)
    requires Recorrido(g, ant, vis, orden, cnt, origen)
    requires 0 <= v < |ant| && !vis[v] && Anclado(ant, v, origen)
    ensures Recorrido(g, ant, vis[v := true], orden[v := cnt], cnt + 1, origen)
    ensures Libres(vis[v := true]) == Libres(vis) - 1
  {
    OrdenVisitar(ant, vis, orden, cnt, origen, v);
    Visitar(vis, v);
  }

  /** What reconstruction needs from the state: a rank that decreases along links, and an
      anchor for every visited node. */
  lemma RecorridoRango(g: Grafo, ant: seq<int>, vis: seq<bool>, orden: seq<nat>, cnt: nat,
                       origen: int, destino: int)
    requires Recorrido(g, ant, vis, orden, cnt, origen) && 0 <= destino < |ant|
    ensures Descendente(ant, RangoVisita(vis, orden, cnt))
    ensures vis[destino] ==> Anclado(ant, destino, origen)
  {
    RangoVisitaDesciende(ant, vis, orden, cnt, origen);
    EnOrdenDe(ant, vis, orden, cnt, origen, destino);
  }

  /** A fresh predecessor array of `n` entries, all -1. */
  method NuevoAnterior(n: nat) returns (anterior: array<int>)
    ensures fresh(anterior) && anterior.Length == n
    ensures forall v :: 0 <= v < n ==> anterior[v] == -1
  {
    anterior := new int[n];
    for i := 0 to n
      invariant forall v :: 0 <= v < i ==> anterior[v] == -1
    {
      anterior[i] := -1;
    }
  }

  /** Follows the predecessor chain from `destino` into `camino[0..largo)`. */
  method Recorrer(ant: array<int>, ghost rank: seq<nat>, destino: int, camino: array<int>)
    returns (largo: int)
    requires camino != ant
    requires Descendente(ant[..], rank) && 0 <= destino < ant.Length
    requires |Atras(ant[..], rank, destino)| <= camino.Length
    modifies camino
    ensures 0 <= largo <= camino.Length
    ensures camino[..largo] == Atras(ant[..], rank, destino)
  {
    ghost var cadena := Atras(ant[..], rank, destino);
    largo := 0;
    var actual := destino;
    while actual != -1
      invariant 0 <= largo <= |cadena|
      invariant camino[..largo] == cadena[..largo]
      invariant actual == -1 ==> largo == |cadena|
      invariant actual != -1 ==> 0 <= actual < ant.Length && cadena[largo..] == Atras(ant[..], rank, actual)
      decreases if actual == -1 then 0 else rank[actual] + 1
    {
      assert cadena[largo..] == [actual] + cadena[largo + 1..];
      camino[largo] := actual;
      largo := largo + 1;
      actual := ant[actual];
    }
  }

  /** Reverses `camino[0..largo)` in place by swapping `i` with `largo - 1 - i` for
      `i < largo / 2`; the rest of the buffer is untouched. */
  method Invertir(camino: array<int>, largo: int)
    requires 0 <= largo <= camino.Length
    modifies camino
    ensures camino[..largo] == Invertida(old(camino[..largo]))
    ensures camino[largo..] == old(camino[largo..])
  {
    ghost var original := camino[..];
    for i := 0 to largo / 2
      invariant forall k :: 0 <= k < i ==> camino[k] == original[largo - 1 - k]
      invariant forall k :: 0 <= k < i ==> camino[largo - 1 - k] == original[k]
      invariant forall k :: i <= k < largo - i ==> camino[k] == original[k]
      invariant forall k :: largo <= k < camino.Length ==> camino[k] == original[k]
    {
      var tmp := camino[i];
      camino[i] := camino[largo - 1 - i];
      camino[largo - 1 - i] := tmp;
    }
    assert camino[..largo] == Invertida(original[..largo]);
  }

  /** Reconstruction as every search performs it: walk the chain, then reverse it. The
      result is a repetition-free walk from `origen` when `destino` is anchored, and the
      one-node path `[destino]` otherwise. */
  method Reconstruir(ghost g: Grafo, ant: array<int>, ghost rank: seq<nat>, origen: int, destino: int,
                     camino: array<int>)
    returns (largo: int)
    requires camino != ant && camino.Length >= g.n
    requires Arbol(g, ant[..], origen) && Descendente(ant[..], rank) && 0 <= destino < ant.Length
    modifies camino
    ensures 1 <= largo <= g.n
    ensures camino[..largo] == Invertida(Atras(ant[..], rank, destino))
    ensures SinRepetir(camino[..largo])
    ensures Anclado(ant[..], destino, origen) ==> CaminoDe(g, camino[..largo], origen, destino)
    ensures !Anclado(ant[..], destino, origen) ==> camino[..largo] == [destino]
    ensures ant[destino] == -1 ==> camino[..largo] == [destino]
  {
    Reconstruccion(g, ant[..], rank, origen, destino);
    largo := Recorrer(ant, rank, destino, camino);
    Invertir(camino, largo);
  }

  /** Reconstruction at the end of a search that keeps `Recorrido`: an anchored destination
      yields a repetition-free walk from the origin, any other the one-node path. */
  method ReconstruirRecorrido(ghost g: Grafo, ant: array<int>, ghost vis: seq<bool>, ghost orden: seq<nat>,
                              ghost cnt: nat, origen: int, destino: int, camino: array<int>)
    returns (largo: int)
    requires camino != ant && camino.Length >= g.n
    requires Recorrido(g, ant[..], vis, orden, cnt, origen) && 0 <= destino < ant.Length
    modifies camino
    ensures 1 <= largo <= g.n
    ensures Anclado(ant[..], destino, origen) ==>
              CaminoDe(g, camino[..largo], origen, destino) && SinRepetir(camino[..largo])
    ensures !Anclado(ant[..], destino, origen) ==> camino[..largo] == [destino]
    ensures destino == origen ==> camino[..largo] == [origen]
  {
    RecorridoRango(g, ant[..], vis, orden, cnt, origen, destino);
    largo := Reconstruir(g, ant, RangoVisita(vis, orden, cnt), origen, destino, camino);
  }
}
