/** `convertir.py`: the road network read from JSON (its nodes, in file order, and its
    edges) becomes the CSR arrays `OFFSET`/`NEIGHBOR`/`WEIGHT` of the small-graph searches.
    Nodes touched by fewer than two edge ends are dropped, the kept nodes are renumbered by
    their position, every kept edge is stored in both directions with one weight, and each
    node's `(neighbour, weight)` pairs are sorted.  The Euclidean distance between two node
    records is the parameter `dist`; the lists are built for any weight `peso` given on
    the two new indices. */
module Convertir {
  import opened Csr

  /** A node record of the JSON file: its id and its coordinates. */
  datatype Nodo = Nodo(id: int, lon: real, lat: real)

  /** The ids of a list of node records, in order. */
  function Ids(nodos: seq<Nodo>): seq<int>
  {
    seq(|nodos|, i requires 0 <= i < |nodos| => nodos[i].id)
  }

  /** An edge of the JSON file, by the ids of its ends (`from`, `to`). */
  datatype Arista = Arista(desde: int, hasta: int)

  /** The value of a step, or the id a lookup in `id_to_index` did not find (`KeyError`). */
  datatype Resultado<T> = Exito(valor: T) | ErrorClave(clave: int)

  /** The arrays the header declares. */
  datatype Cabecera = Cabecera(node_count: int, offset: seq<int>, neighbor: seq<int>, weight: seq<nat>)

  // ---------------------------------------------------------------------------------------
  // Degrees and the two filters

  /** The ends of the edges equal to `id`: its degree. */
  function Grado(aristas: seq<Arista>, id: int): nat
  {
    if aristas == [] then 0
    else
      var e := aristas[|aristas| - 1];
      Grado(aristas[..|aristas| - 1], id) + (if e.desde == id then 1 else 0) + (if e.hasta == id then 1 else 0)
  }

  /** `id` is an end of `e`. */
  predicate Extremo(e: Arista, id: int)
  {
    e.desde == id || e.hasta == id
  }

  /** A node has a positive degree exactly when it is an end of some edge. */
  lemma {:induction false} GradoPositivo(aristas: seq<Arista>, id: int)
    ensures Grado(aristas, id) > 0 <==> exists k :: 0 <= k < |aristas| && Extremo(aristas[k], id)
  {
    if aristas != [] {
      var previas := aristas[..|aristas| - 1];
      GradoPositivo(previas, id);
      if exists k :: 0 <= k < |aristas| && Extremo(aristas[k], id) {
        var k :| 0 <= k < |aristas| && Extremo(aristas[k], id);
        if k < |previas| {
          assert Extremo(previas[k], id);
        }
      }
    }
  }

  /** The value of `id` in a `defaultdict(int)`: 0 when absent. */
  function Leido(grado: map<int, nat>, id: int): nat
  {
    if id in grado then grado[id] else 0
  }

  /** The degree loop: `grado` holds exactly the ids that end some edge, each with its
      degree. */
  method CalcularGrado(aristas: seq<Arista>) returns (grado: map<int, nat>)
    ensures forall id :: id in grado <==> Grado(aristas, id) > 0
    ensures forall id :: id in grado ==> grado[id] == Grado(aristas, id)
  {
    grado := map[];
    for k := 0 to |aristas|
      invariant forall id :: id in grado <==> Grado(aristas[..k], id) > 0
      invariant forall id :: id in grado ==> grado[id] == Grado(aristas[..k], id)
    {
      var e := aristas[k];
      assert aristas[..k + 1][..k] == aristas[..k];
      grado := grado[e.desde := Leido(grado, e.desde) + 1];
      grado := grado[e.hasta := Leido(grado, e.hasta) + 1];
    }
    assert aristas[..|aristas|] == aristas;
  }

  /** `nodos_validos_ids`: the ids counted at least twice. */
  function Validos(grado: map<int, nat>): set<int>
  {
    set id | id in grado && grado[id] >= 2
  }

  /** The elements of `s` that pass `p`, in their order: a list comprehension with a
      condition. */
  function Filtro<T>(s: seq<T>, p: T -> bool): (r: seq<T>)
    ensures |r| <= |s|
  {
    if s == [] then []
    else Filtro(s[..|s| - 1], p) + (if p(s[|s| - 1]) then [s[|s| - 1]] else [])
  }

  /** What the filter keeps: exactly the elements that pass. */
  lemma {:induction false} FiltroMiembros<T>(s: seq<T>, p: T -> bool, x: T)
    ensures x in Filtro(s, p) <==> x in s && p(x)
  {
    if s != [] {
      FiltroMiembros(s[..|s| - 1], p, x);
      assert s == s[..|s| - 1] + [s[|s| - 1]];
    }
  }

  /** The filter keeps the order: filtering a concatenation concatenates the filtered
      parts. */
  lemma {:induction false} FiltroUnir<T>(a: seq<T>, b: seq<T>, p: T -> bool)
    ensures Filtro(a + b, p) == Filtro(a, p) + Filtro(b, p)
  {
    if b == [] {
      assert a + b == a;
    } else {
      FiltroUnir(a, b[..|b| - 1], p);
      assert (a + b)[..|a + b| - 1] == a + b[..|b| - 1];
    }
  }

  /** Filters whose conditions agree on `s` keep the same elements. */
  lemma {:induction false} FiltroIgual<T>(s: seq<T>, p: T -> bool, q: T -> bool)
    requires forall k :: 0 <= k < |s| ==> p(s[k]) == q(s[k])
    ensures Filtro(s, p) == Filtro(s, q)
  {
    if s != [] {
      FiltroIgual(s[..|s| - 1], p, q);
    }
  }

  /** `nodos_filtrados`: the records of `nodos` whose id is in `validos`. */
  function NodosFiltrados(nodos: seq<Nodo>, validos: set<int>): seq<Nodo>
  {
    Filtro(nodos, (n: Nodo) => n.id in validos)
  }

  /** `edges_filtradas`: the edges with both ends in `validos`. */
  function AristasFiltradas(aristas: seq<Arista>, validos: set<int>): seq<Arista>
  {
    Filtro(aristas, (e: Arista) => e.desde in validos && e.hasta in validos)
  }

  /** The nodes the script keeps: those of degree at least 2, in file order. */
  ghost function NodosConservados(nodos: seq<Nodo>, aristas: seq<Arista>): seq<Nodo>
  {
    Filtro(nodos, (n: Nodo) => Grado(aristas, n.id) >= 2)
  }

  /** The edges the script keeps: those whose two ends have degree at least 2. */
  ghost function AristasConservadas(aristas: seq<Arista>): seq<Arista>
  {
    Filtro(aristas, (e: Arista) => Grado(aristas, e.desde) >= 2 && Grado(aristas, e.hasta) >= 2)
  }

  // ---------------------------------------------------------------------------------------
  // id_to_index

  /** `id_to_index`: each id to its position in `filtrados`; for an id listed twice the
      later position overwrites the earlier one. */
  function IndiceDe(filtrados: seq<int>): map<int, int>
  {
    if filtrados == [] then map[]
    else IndiceDe(filtrados[..|filtrados| - 1])[filtrados[|filtrados| - 1] := |filtrados| - 1]
  }

  /** The map has exactly the listed ids as keys, and sends each to its last position. */
  lemma {:induction false} IndiceUltimo(filtrados: seq<int>, id: int)
    ensures id in IndiceDe(filtrados) <==> id in filtrados
    ensures id in IndiceDe(filtrados) ==>
              var i := IndiceDe(filtrados)[id];
              0 <= i < |filtrados| && filtrados[i] == id &&
              forall j :: i < j < |filtrados| ==> filtrados[j] != id
  {
    if filtrados != [] {
      var previos := filtrados[..|filtrados| - 1];
      IndiceUltimo(previos, id);
      assert filtrados == previos + [filtrados[|filtrados| - 1]];
    }
  }

  /** With distinct ids `id_to_index` is a bijection between the kept ids and
      `0 .. NODE_COUNT - 1`: position `i` maps back to `i`, and every value is a position
      holding its key. */
  lemma IndiceBiyectivo(filtrados: seq<int>)
    requires SinRepetir(filtrados)
    ensures forall i :: 0 <= i < |filtrados| ==>
              filtrados[i] in IndiceDe(filtrados) && IndiceDe(filtrados)[filtrados[i]] == i
    ensures forall id :: id in IndiceDe(filtrados) ==>
              0 <= IndiceDe(filtrados)[id] < |filtrados| && filtrados[IndiceDe(filtrados)[id]] == id
  {
    forall i | 0 <= i < |filtrados|
      ensures filtrados[i] in IndiceDe(filtrados) && IndiceDe(filtrados)[filtrados[i]] == i
    {
      IndiceUltimo(filtrados, filtrados[i]);
    }
    forall id | id in IndiceDe(filtrados)
      ensures 0 <= IndiceDe(filtrados)[id] < |filtrados| && filtrados[IndiceDe(filtrados)[id]] == id
    {
      IndiceUltimo(filtrados, id);
    }
  }

  /** Every value of `id_to_index` is a position of the list it was built from. */
  lemma IndiceEnRango(filtrados: seq<int>)
    ensures forall id :: id in IndiceDe(filtrados) ==> 0 <= IndiceDe(filtrados)[id] < |filtrados|
  {
    forall id | id in IndiceDe(filtrados)
      ensures 0 <= IndiceDe(filtrados)[id] < |filtrados|
    {
      IndiceUltimo(filtrados, id);
    }
  }

  // ---------------------------------------------------------------------------------------
  // The adjacency lists

  /** A `(neighbour, weight)` pair, as `zip(vecinos, pesos)` yields it. */
  type Par = (int, nat)

  /** Both ends of `e` are keys of `id_to_index`. */
  predicate Conocida(indice: map<int, int>, e: Arista)
  {
    e.desde in indice && e.hasta in indice
  }

  /** Every value of `indice` is a node below `n`. */
  ghost predicate EnRango(indice: map<int, int>, n: nat)
  {
    forall id :: id in indice ==> 0 <= indice[id] < n
  }

  /** `p` after edge `u - v` of weight `w` is stored: `(v, w)` appended to `u`'s list,
      then `(u, w)` to `v`'s. */
  function Enlazar(p: seq<seq<Par>>, u: int, v: int, w: nat): (r: seq<seq<Par>>)
    requires 0 <= u < |p| && 0 <= v < |p|
    ensures |r| == |p|
  {
    var p' := p[u := p[u] + [(v, w)]];
    p'[v := p'[v] + [(u, w)]]
  }

  /** The pairs of every node after the edge loop over `aristas`, or the first id the loop
      looked up in vain: `from` before `to`, edge after edge. */
  ghost function ListasDe(aristas: seq<Arista>, indice: map<int, int>, n: nat, peso: (int, int) -> nat)
    : (r: Resultado<seq<seq<Par>>>)
    requires EnRango(indice, n)
    ensures r.Exito? ==> |r.valor| == n
  {
    if aristas == [] then Exito(seq(n, _ => []))
    else
      match ListasDe(aristas[..|aristas| - 1], indice, n, peso)
      case ErrorClave(k) => ErrorClave(k)
      case Exito(p) =>
        var e := aristas[|aristas| - 1];
        if e.desde !in indice then ErrorClave(e.desde)
        else if e.hasta !in indice then ErrorClave(e.hasta)
        else
          var u, v := indice[e.desde], indice[e.hasta];
          Exito(Enlazar(p, u, v, peso(u, v)))
  }

  /** The loop gets through exactly when every end of every edge is a key. */
  lemma {:induction false} ListasExito(aristas: seq<Arista>, indice: map<int, int>, n: nat, peso: (int, int) -> nat)
    requires EnRango(indice, n)
    ensures ListasDe(aristas, indice, n, peso).Exito? <==> forall k :: 0 <= k < |aristas| ==> Conocida(indice, aristas[k])
    ensures ListasDe(aristas, indice, n, peso).ErrorClave? ==>
              var clave := ListasDe(aristas, indice, n, peso).clave;
              clave !in indice && exists k :: 0 <= k < |aristas| && Extremo(aristas[k], clave)
  {
    if aristas != [] {
      var previas := aristas[..|aristas| - 1];
      ListasExito(previas, indice, n, peso);
      assert forall k :: 0 <= k < |previas| ==> previas[k] == aristas[k];
    }
  }

  /** Once a lookup fails, the later edges do not matter. */
  lemma {:induction false} ListasError(aristas: seq<Arista>, j: int, indice: map<int, int>, n: nat,
                                       peso: (int, int) -> nat)
    requires EnRango(indice, n) && 0 <= j <= |aristas|
    requires ListasDe(aristas[..j], indice, n, peso).ErrorClave?
    ensures ListasDe(aristas, indice, n, peso) == ListasDe(aristas[..j], indice, n, peso)
    decreases |aristas| - j
  {
    if j < |aristas| {
      assert aristas[..j + 1][..j] == aristas[..j];
      ListasError(aristas, j + 1, indice, n, peso);
    } else {
      assert aristas[..j] == aristas;
    }
  }

  /** Every stored neighbour is a node below `n`. */
  ghost predicate Destinos(p: seq<seq<Par>>, n: nat)
  {
    forall u, x :: 0 <= u < |p| && x in p[u] ==> 0 <= x.0 < n
  }

  /** Each pair `(v, w)` sits in `u`'s list as often as `(u, w)` sits in `v`'s: every edge
      is stored in both directions with the same weight. */
  ghost predicate Simetricas(p: seq<seq<Par>>)
  {
    forall u, v, w :: 0 <= u < |p| && 0 <= v < |p| ==> multiset(p[u])[(v, w)] == multiset(p[v])[(u, w)]
  }

  /** The pairs stored for all nodes together. */
  function Total(p: seq<seq<Par>>): nat
  {
    if p == [] then 0 else Total(p[..|p| - 1]) + |p[|p| - 1]|
  }

  /** Appending one pair to one list adds one to the total. */
  lemma {:induction false} TotalAgregar(p: seq<seq<Par>>, u: int, x: Par)
    requires 0 <= u < |p|
    ensures Total(p[u := p[u] + [x]]) == Total(p) + 1
  {
    var q := p[u := p[u] + [x]];
    if u < |p| - 1 {
      assert q[..|q| - 1] == p[..|p| - 1][u := p[u] + [x]];
      TotalAgregar(p[..|p| - 1], u, x);
    } else {
      assert q[..|q| - 1] == p[..|p| - 1];
    }
  }

  /** What storing edge `u - v` adds to the list of node `a`. */
  lemma EnlazarLista(p: seq<seq<Par>>, u: int, v: int, w: nat, a: int)
    requires 0 <= u < |p| && 0 <= v < |p| && 0 <= a < |p|
    ensures multiset(Enlazar(p, u, v, w)[a]) ==
              multiset(p[a]) + (if a == u then multiset{(v, w)} else multiset{})
                             + (if a == v then multiset{(u, w)} else multiset{})
  {
  }

  /** Storing one edge keeps the neighbours nodes. */
  lemma EnlazarDestinos(p: seq<seq<Par>>, u: int, v: int, w: nat)
    requires 0 <= u < |p| && 0 <= v < |p| && Destinos(p, |p|)
    ensures Destinos(Enlazar(p, u, v, w), |p|)
  {
    var r := Enlazar(p, u, v, w);
    forall a, x: Par | 0 <= a < |r| && x in r[a]
      ensures 0 <= x.0 < |p|
    {
      EnlazarLista(p, u, v, w, a);
      assert x in multiset(r[a]);
    }
  }

  /** Storing one edge keeps the lists symmetric. */
  lemma EnlazarSimetricas(p: seq<seq<Par>>, u: int, v: int, w: nat)
    requires 0 <= u < |p| && 0 <= v < |p| && Simetricas(p)
    ensures Simetricas(Enlazar(p, u, v, w))
  {
    var r := Enlazar(p, u, v, w);
    forall a, b, c | 0 <= a < |r| && 0 <= b < |r|
      ensures multiset(r[a])[(b, c)] == multiset(r[b])[(a, c)]
    {
      EnlazarCuenta(p, u, v, w, a, (b, c));
      EnlazarCuenta(p, u, v, w, b, (a, c));
      assert multiset(p[a])[(b, c)] == multiset(p[b])[(a, c)];
    }
  }

  /** How often storing edge `u - v` leaves pair `y` in the list of node `a`. */
  lemma EnlazarCuenta(p: seq<seq<Par>>, u: int, v: int, w: nat, a: int, y: Par)
    requires 0 <= u < |p| && 0 <= v < |p| && 0 <= a < |p|
    ensures multiset(Enlazar(p, u, v, w)[a])[y] ==
              multiset(p[a])[y] + (if a == u && y == (v, w) then 1 else 0)
                                + (if a == v && y == (u, w) then 1 else 0)
  {
    EnlazarLista(p, u, v, w, a);
  }

  /** Lists that are all empty hold no pair. */
  lemma {:induction false} TotalVacias(p: seq<seq<Par>>)
    requires forall u :: 0 <= u < |p| ==> p[u] == []
    ensures Total(p) == 0
  {
    if p != [] {
      TotalVacias(p[..|p| - 1]);
    }
  }

  /** What the edge loop builds: every neighbour is a node, each edge is stored both ways
      with one weight, and there are twice as many pairs as edges. */
  lemma {:induction false} ListasCorrectas(aristas: seq<Arista>, indice: map<int, int>, n: nat,
                                           peso: (int, int) -> nat)
    requires EnRango(indice, n) && ListasDe(aristas, indice, n, peso).Exito?
    ensures var p := ListasDe(aristas, indice, n, peso).valor;
            Destinos(p, n) && Simetricas(p) && Total(p) == 2 * |aristas|
  {
    if aristas == [] {
      TotalVacias(seq(n, _ => []));
    } else {
      var previas := aristas[..|aristas| - 1];
      ListasCorrectas(previas, indice, n, peso);
      var e := aristas[|aristas| - 1];
      var u, v := indice[e.desde], indice[e.hasta];
      var p := ListasDe(previas, indice, n, peso).valor;
      EnlazarDestinos(p, u, v, peso(u, v));
      EnlazarSimetricas(p, u, v, peso(u, v));
      TotalAgregar(p, u, (v, peso(u, v)));
      TotalAgregar(p[u := p[u] + [(v, peso(u, v))]], v, (u, peso(u, v)));
    }
  }

  /** Edge `e` is stored in node `u`'s list as the pair `x`: both ends are keys, one maps to
      `u` and the other to `x.0`, and `x.1` is the weight of `from`'s index to `to`'s. */
  ghost predicate Une(indice: map<int, int>, e: Arista, u: int, x: Par, peso: (int, int) -> nat)
  {
    Conocida(indice, e) && x.1 == peso(indice[e.desde], indice[e.hasta]) &&
    ((indice[e.desde] == u && indice[e.hasta] == x.0) || (indice[e.hasta] == u && indice[e.desde] == x.0))
  }

  /** Every pair in the lists stands for one of `aristas`. */
  ghost predicate Procedentes(p: seq<seq<Par>>, aristas: seq<Arista>, indice: map<int, int>, peso: (int, int) -> nat)
  {
    forall u, x :: 0 <= u < |p| && x in p[u] ==> exists k :: 0 <= k < |aristas| && Une(indice, aristas[k], u, x, peso)
  }

  /** Edge `e` sits in the lists of both its ends, each time with the other end and the
      edge's weight. */
  ghost predicate Guardada(p: seq<seq<Par>>, indice: map<int, int>, e: Arista, peso: (int, int) -> nat)
  {
    Conocida(indice, e) &&
    var a, b := indice[e.desde], indice[e.hasta];
    0 <= a < |p| && 0 <= b < |p| && (b, peso(a, b)) in p[a] && (a, peso(a, b)) in p[b]
  }

  /** Every one of `aristas` is in the lists. */
  ghost predicate Guardadas(p: seq<seq<Par>>, aristas: seq<Arista>, indice: map<int, int>, peso: (int, int) -> nat)
  {
    forall k :: 0 <= k < |aristas| ==> Guardada(p, indice, aristas[k], peso)
  }

  /** Storing edge `e` after `previas` keeps every pair traced to an edge. */
  lemma EnlazarProcedentes(p: seq<seq<Par>>, aristas: seq<Arista>, indice: map<int, int>,
                           peso: (int, int) -> nat)
    requires aristas != [] && var e := aristas[|aristas| - 1];
             Conocida(indice, e) && 0 <= indice[e.desde] < |p| && 0 <= indice[e.hasta] < |p|
    requires Procedentes(p, aristas[..|aristas| - 1], indice, peso)
    ensures var e := aristas[|aristas| - 1];
            var a, b := indice[e.desde], indice[e.hasta];
            Procedentes(Enlazar(p, a, b, peso(a, b)), aristas, indice, peso)
  {
    var previas, e := aristas[..|aristas| - 1], aristas[|aristas| - 1];
    var a, b := indice[e.desde], indice[e.hasta];
    var w := peso(a, b);
    var r := Enlazar(p, a, b, w);
    forall u, x | 0 <= u < |r| && x in r[u]
      ensures exists k :: 0 <= k < |aristas| && Une(indice, aristas[k], u, x, peso)
    {
      EnlazarLista(p, a, b, w, u);
      assert x in multiset(r[u]);
      if x in p[u] {
        var k :| 0 <= k < |previas| && Une(indice, previas[k], u, x, peso);
        assert aristas[k] == previas[k];
      } else {
        assert Une(indice, aristas[|previas|], u, x, peso);
      }
    }
  }

  /** An edge already stored stays stored when another is. */
  lemma GuardadaSigue(p: seq<seq<Par>>, indice: map<int, int>, f: Arista, peso: (int, int) -> nat,
                      a: int, b: int, w: nat)
    requires 0 <= a < |p| && 0 <= b < |p| && Guardada(p, indice, f, peso)
    ensures Guardada(Enlazar(p, a, b, w), indice, f, peso)
  {
    var r := Enlazar(p, a, b, w);
    var c, d := indice[f.desde], indice[f.hasta];
    EnlazarLista(p, a, b, w, c);
    EnlazarLista(p, a, b, w, d);
    assert (d, peso(c, d)) in multiset(p[c]) && (c, peso(c, d)) in multiset(p[d]);
    assert (d, peso(c, d)) in multiset(r[c]) && (c, peso(c, d)) in multiset(r[d]);
  }

  /** Storing edge `e` after `previas` keeps the earlier edges stored and stores `e`. */
  lemma EnlazarGuardadas(p: seq<seq<Par>>, aristas: seq<Arista>, indice: map<int, int>,
                         peso: (int, int) -> nat)
    requires aristas != [] && var e := aristas[|aristas| - 1];
             Conocida(indice, e) && 0 <= indice[e.desde] < |p| && 0 <= indice[e.hasta] < |p|
    requires Guardadas(p, aristas[..|aristas| - 1], indice, peso)
    ensures var e := aristas[|aristas| - 1];
            var a, b := indice[e.desde], indice[e.hasta];
            Guardadas(Enlazar(p, a, b, peso(a, b)), aristas, indice, peso)
  {
    var previas, e := aristas[..|aristas| - 1], aristas[|aristas| - 1];
    var a, b := indice[e.desde], indice[e.hasta];
    var w := peso(a, b);
    var r := Enlazar(p, a, b, w);
    forall k | 0 <= k < |aristas|
      ensures Guardada(r, indice, aristas[k], peso)
    {
      if k < |previas| {
        assert aristas[k] == previas[k];
        GuardadaSigue(p, indice, previas[k], peso, a, b, w);
      } else {
        EnlazarLista(p, a, b, w, a);
        EnlazarLista(p, a, b, w, b);
        assert (b, w) in multiset(r[a]) && (a, w) in multiset(r[b]);
      }
    }
  }

  /** The edge loop stores exactly its edges: every pair comes from an edge, and every edge
      is in the lists of both its ends. */
  lemma {:induction false} ListasOrigen(aristas: seq<Arista>, indice: map<int, int>, n: nat,
                                        peso: (int, int) -> nat)
    requires EnRango(indice, n) && ListasDe(aristas, indice, n, peso).Exito?
    ensures Procedentes(ListasDe(aristas, indice, n, peso).valor, aristas, indice, peso)
    ensures Guardadas(ListasDe(aristas, indice, n, peso).valor, aristas, indice, peso)
  {
    if aristas != [] {
      var previas := aristas[..|aristas| - 1];
      ListasOrigen(previas, indice, n, peso);
      var e := aristas[|aristas| - 1];
      var p := ListasDe(previas, indice, n, peso).valor;
      EnlazarProcedentes(p, aristas, indice, peso);
      EnlazarGuardadas(p, aristas, indice, peso);
    }
  }

  /** `adj` and `weight` are the lists of pairs `p` taken apart: `zip(adj[u], weight[u])`
      is `p[u]`. */
  ghost predicate Emparejadas(adj: seq<seq<int>>, weight: seq<seq<nat>>, p: seq<seq<Par>>)
  {
    |adj| == |weight| == |p| && forall u :: 0 <= u < |p| ==> Parejas(adj[u], weight[u], p[u])
  }

  /** `zip(vecinos, pesos)` is `l`. */
  ghost predicate Parejas(vecinos: seq<int>, pesos: seq<nat>, l: seq<Par>)
  {
    |vecinos| == |pesos| == |l| && forall k :: 0 <= k < |l| ==> l[k] == (vecinos[k], pesos[k])
  }

  /** The edge loop: for each kept edge, `u` and `v` looked up (a missing id raises
      `KeyError`), then `v` and the weight appended to `u`'s lists and `u` and the weight to
      `v`'s. */
  method ConstruirListas(aristas: seq<Arista>, indice: map<int, int>, n: nat, peso: (int, int) -> nat)
    returns (r: Resultado<(seq<seq<int>>, seq<seq<nat>>)>)
    requires EnRango(indice, n)
    ensures r.ErrorClave? <==> ListasDe(aristas, indice, n, peso).ErrorClave?
    ensures r.ErrorClave? ==> r.clave == ListasDe(aristas, indice, n, peso).clave
    ensures r.Exito? ==> Emparejadas(r.valor.0, r.valor.1, ListasDe(aristas, indice, n, peso).valor)
  {
    var adj: seq<seq<int>> := seq(n, _ => []);
    var weight: seq<seq<nat>> := seq(n, _ => []);
    for k := 0 to |aristas|
      invariant ListasDe(aristas[..k], indice, n, peso).Exito?
      invariant Emparejadas(adj, weight, ListasDe(aristas[..k], indice, n, peso).valor)
    {
      var e := aristas[k];
      assert aristas[..k + 1][..k] == aristas[..k];
      if e.desde !in indice {
        ListasError(aristas, k + 1, indice, n, peso);
        return ErrorClave(e.desde);
      }
      var u := indice[e.desde];
      if e.hasta !in indice {
        ListasError(aristas, k + 1, indice, n, peso);
        return ErrorClave(e.hasta);
      }
      var v := indice[e.hasta];
      var dist := peso(u, v);
      ghost var p := ListasDe(aristas[..k], indice, n, peso).valor;
      EmparejarAgregar(adj, weight, p, u, v, dist);
      adj := adj[u := adj[u] + [v]];
      weight := weight[u := weight[u] + [dist]];
      EmparejarAgregar(adj, weight, p[u := p[u] + [(v, dist)]], v, u, dist);
      adj := adj[v := adj[v] + [u]];
      weight := weight[v := weight[v] + [dist]];
    }
    assert aristas[..|aristas|] == aristas;
    return Exito((adj, weight));
  }

  /** Appending `v` and `w` to `u`'s two lists appends `(v, w)` to its pairs. */
  lemma EmparejarAgregar(adj: seq<seq<int>>, weight: seq<seq<nat>>, p: seq<seq<Par>>, u: int, v: int, w: nat)
    requires Emparejadas(adj, weight, p) && 0 <= u < |p|
    ensures Emparejadas(adj[u := adj[u] + [v]], weight[u := weight[u] + [w]], p[u := p[u] + [(v, w)]])
  {
    var adj', weight', p' := adj[u := adj[u] + [v]], weight[u := weight[u] + [w]], p[u := p[u] + [(v, w)]];
    forall a | 0 <= a < |p'|
      ensures Parejas(adj'[a], weight'[a], p'[a])
    {
      assert Parejas(adj[a], weight[a], p[a]);
    }
  }

  // ---------------------------------------------------------------------------------------
  // Sorting and the CSR arrays

  /** `x` comes before or with `y` in Python's tuple order: by neighbour, then weight. */
  predicate NoMayor(x: Par, y: Par)
  {
    x.0 < y.0 || (x.0 == y.0 && x.1 <= y.1)
  }

  ghost predicate Ordenada(s: seq<Par>)
  {
    forall i, j :: 0 <= i < j < |s| ==> NoMayor(s[i], s[j])
  }

  /** `x` placed before the first element it does not follow. */
  function Insertar(s: seq<Par>, x: Par): (r: seq<Par>)
    ensures multiset(r) == multiset(s) + multiset{x}
    ensures Ordenada(s) ==> Ordenada(r)
  {
    if s == [] then [x]
    else if NoMayor(x, s[0]) then [x] + s
    else
      assert s == [s[0]] + s[1..];
      var t := Insertar(s[1..], x);
      Antepuesto(s[0], s[1..], x, t);
      [s[0]] + t
  }

  /** The head of a sorted list, put back before the rest with `x` inserted, keeps it
      sorted when `x` does not come before the head. */
  lemma Antepuesto(a: Par, s: seq<Par>, x: Par, t: seq<Par>)
    requires !NoMayor(x, a) && multiset(t) == multiset(s) + multiset{x}
    requires Ordenada(s) ==> Ordenada(t)
    ensures Ordenada([a] + s) ==> Ordenada([a] + t)
  {
    if Ordenada([a] + s) {
      assert Ordenada(s) by {
        forall i, j | 0 <= i < j < |s|
          ensures NoMayor(s[i], s[j])
        {
          assert ([a] + s)[i + 1] == s[i] && ([a] + s)[j + 1] == s[j];
        }
      }
      forall j | 0 <= j < |t|
        ensures NoMayor(a, t[j])
      {
        assert t[j] in multiset(t);
        if t[j] != x {
          assert t[j] in multiset(s);
          var k :| 0 <= k < |s| && s[k] == t[j];
          assert ([a] + s)[0] == a && ([a] + s)[k + 1] == s[k];
          assert NoMayor(([a] + s)[0], ([a] + s)[k + 1]);
        }
      }
      forall i, j | 0 <= i < j < |[a] + t|
        ensures NoMayor(([a] + t)[i], ([a] + t)[j])
      {
        if 0 < i {
          assert ([a] + t)[i] == t[i - 1] && ([a] + t)[j] == t[j - 1];
        }
      }
    }
  }

  /** `sorted(zip(vecinos, pesos))`: the same pairs in tuple order. */
  function Ordenar(s: seq<Par>): (r: seq<Par>)
    ensures Ordenada(r) && multiset(r) == multiset(s)
  {
    if s == [] then []
    else
      assert s == s[..|s| - 1] + [s[|s| - 1]];
      Insertar(Ordenar(s[..|s| - 1]), s[|s| - 1])
  }

  /** Node `u`'s slice of the CSR arrays holds the pairs `l`, in order. */
  ghost predicate TramoCsr(offset: seq<int>, neighbor: seq<int>, weight: seq<nat>, u: int, l: seq<Par>)
  {
    0 <= u && u + 1 < |offset| && 0 <= offset[u] && offset[u] + |l| == offset[u + 1] <= |neighbor| == |weight| &&
    forall i :: 0 <= i < |l| ==> (neighbor[offset[u] + i], weight[offset[u] + i]) == l[i]
  }

  /** Appending to the arrays leaves the slices already built as they were. */
  lemma TramoCsrCrece(offset: seq<int>, neighbor: seq<int>, weight: seq<nat>, u: int, l: seq<Par>,
                      offset': seq<int>, neighbor': seq<int>, weight': seq<nat>)
    requires TramoCsr(offset, neighbor, weight, u, l)
    requires |offset| <= |offset'| && offset'[..|offset|] == offset
    requires |neighbor| <= |neighbor'| == |weight'| && neighbor'[..|neighbor|] == neighbor && weight'[..|weight|] == weight
    ensures TramoCsr(offset', neighbor', weight', u, l)
  {
    forall i | 0 <= i < |l|
      ensures (neighbor'[offset'[u] + i], weight'[offset'[u] + i]) == l[i]
    {
      assert offset'[u] == offset[u] && neighbor'[offset[u] + i] == neighbor[offset[u] + i];
      assert weight'[offset[u] + i] == weight[offset[u] + i];
    }
  }

  /** The inner loop: the sorted pairs appended to `NEIGHBOR` and `WEIGHT`. */
  method AgregarOrdenados(neighbor: seq<int>, weight: seq<nat>, ordenados: seq<Par>)
    returns (neighbor': seq<int>, weight': seq<nat>)
    requires |neighbor| == |weight|
    ensures |neighbor'| == |weight'| == |neighbor| + |ordenados|
    ensures neighbor'[..|neighbor|] == neighbor && weight'[..|weight|] == weight
    ensures forall i :: 0 <= i < |ordenados| ==> (neighbor'[|neighbor| + i], weight'[|neighbor| + i]) == ordenados[i]
  {
    neighbor', weight' := neighbor, weight;
    for k := 0 to |ordenados|
      invariant |neighbor'| == |weight'| == |neighbor| + k
      invariant neighbor'[..|neighbor|] == neighbor && weight'[..|weight|] == weight
      invariant forall i :: 0 <= i < k ==> (neighbor'[|neighbor| + i], weight'[|neighbor| + i]) == ordenados[i]
    {
      var (v, w) := ordenados[k];
      neighbor' := neighbor' + [v];
      weight' := weight' + [w];
    }
  }

  /** `zip(vecinos, pesos)`. */
  function Zip(vecinos: seq<int>, pesos: seq<nat>): (r: seq<Par>)
    requires |vecinos| == |pesos|
    ensures Parejas(vecinos, pesos, r)
  {
    seq(|vecinos|, k requires 0 <= k < |vecinos| => (vecinos[k], pesos[k]))
  }

  /** The slices of nodes `0 .. u - 1` hold their lists. */
  ghost predicate TramosHasta(offset: seq<int>, neighbor: seq<int>, pesos: seq<nat>, listas: seq<seq<Par>>, u: int)
    requires 0 <= u <= |listas|
  {
    forall t :: 0 <= t < u ==> TramoCsr(offset, neighbor, pesos, t, listas[t])
  }

  /** One turn of the outer loop keeps the slices built and adds node `u`'s. */
  lemma PasoCsr(listas: seq<seq<Par>>, u: int, offset: seq<int>, neighbor: seq<int>,
                pesos: seq<nat>, neighbor': seq<int>, pesos': seq<nat>)
    requires 0 <= u < |listas|
    requires |offset| == u + 1 && offset[u] == |neighbor| == |pesos|
    requires TramosHasta(offset, neighbor, pesos, listas, u)
    requires |neighbor'| == |pesos'| == |neighbor| + |listas[u]|
    requires neighbor'[..|neighbor|] == neighbor && pesos'[..|pesos|] == pesos
    requires forall i :: 0 <= i < |listas[u]| ==> (neighbor'[|neighbor| + i], pesos'[|neighbor| + i]) == listas[u][i]
    ensures TramosHasta(offset + [|neighbor'|], neighbor', pesos', listas, u + 1)
  {
    var offset' := offset + [|neighbor'|];
    assert offset'[..|offset|] == offset;
    forall t | 0 <= t < u + 1
      ensures TramoCsr(offset', neighbor', pesos', t, listas[t])
    {
      if t < u {
        TramoCsrCrece(offset, neighbor, pesos, t, listas[t], offset', neighbor', pesos');
      }
    }
  }

  /** The `OFFSET`/`NEIGHBOR`/`WEIGHT` loop: node after node, its pairs sorted and appended,
      then the running length appended to `OFFSET`. */
  method ConstruirCsr(adj: seq<seq<int>>, weight: seq<seq<nat>>)
    returns (offset: seq<int>, neighbor: seq<int>, pesos: seq<nat>)
    requires |adj| == |weight| && forall u :: 0 <= u < |adj| ==> |adj[u]| == |weight[u]|
    ensures |offset| == |adj| + 1 && offset[0] == 0 && offset[|adj|] == |neighbor| == |pesos|
    ensures forall u :: 0 <= u < |adj| ==> TramoCsr(offset, neighbor, pesos, u, Ordenar(Zip(adj[u], weight[u])))
  {
    ghost var listas := seq(|adj|, t requires 0 <= t < |adj| => Ordenar(Zip(adj[t], weight[t])));
    offset, neighbor, pesos := [0], [], [];
    for u := 0 to |adj|
      invariant |offset| == u + 1 && offset[0] == 0 && offset[u] == |neighbor| == |pesos|
      invariant TramosHasta(offset, neighbor, pesos, listas, u)
    {
      var ordenados := Ordenar(Zip(adj[u], weight[u]));
      var neighbor', pesos' := AgregarOrdenados(neighbor, pesos, ordenados);
      PasoCsr(listas, u, offset, neighbor, pesos, neighbor', pesos');
      offset, neighbor, pesos := offset + [|neighbor'|], neighbor', pesos';
    }
    forall u | 0 <= u < |adj|
      ensures TramoCsr(offset, neighbor, pesos, u, Ordenar(Zip(adj[u], weight[u])))
    {
      assert TramoCsr(offset, neighbor, pesos, u, listas[u]);
    }
  }

  // ---------------------------------------------------------------------------------------
  // The whole script

  /** The computed `nodos_validos_ids` is the set of ids of degree at least 2, so the two
      filters keep what `NodosConservados` and `AristasConservadas` describe. */
  lemma Conservados(nodos: seq<Nodo>, aristas: seq<Arista>, grado: map<int, nat>)
    requires forall id :: id in grado <==> Grado(aristas, id) > 0
    requires forall id :: id in grado ==> grado[id] == Grado(aristas, id)
    ensures forall id :: id in Validos(grado) <==> Grado(aristas, id) >= 2
    ensures NodosFiltrados(nodos, Validos(grado)) == NodosConservados(nodos, aristas)
    ensures AristasFiltradas(aristas, Validos(grado)) == AristasConservadas(aristas)
  {
    var validos := Validos(grado);
    FiltroIgual(nodos, (n: Nodo) => n.id in validos, (n: Nodo) => Grado(aristas, n.id) >= 2);
    FiltroIgual(aristas, (e: Arista) => e.desde in validos && e.hasta in validos,
                (e: Arista) => Grado(aristas, e.desde) >= 2 && Grado(aristas, e.hasta) >= 2);
  }

  /** The pairs in node `u`'s slice of the header. */
  ghost function ParesDe(c: Cabecera, u: int): (l: seq<Par>)
    requires Escalon(c, u)
  {
    seq(c.offset[u + 1] - c.offset[u], i requires 0 <= i < c.offset[u + 1] - c.offset[u] =>
          (c.neighbor[c.offset[u] + i], c.weight[c.offset[u] + i]))
  }

  /** The header is well formed: `NODE_COUNT + 1` offsets from 0 to the number of entries,
      never decreasing. */
  ghost predicate Formada(c: Cabecera)
  {
    c.node_count >= 0 && |c.offset| == c.node_count + 1 && c.offset[0] == 0 &&
    c.offset[c.node_count] == |c.neighbor| == |c.weight| &&
    forall u :: 0 <= u < c.node_count ==> Escalon(c, u)
  }

  /** Node `u`'s slice of the header lies inside the arrays. */
  ghost predicate Escalon(c: Cabecera, u: int)
  {
    0 <= u && u + 1 < |c.offset| && 0 <= c.offset[u] <= c.offset[u + 1] <= |c.neighbor| == |c.weight|
  }

  /** A slice holding `l` lists exactly `l`. */
  lemma ParesDeTramo(c: Cabecera, u: int, l: seq<Par>)
    requires TramoCsr(c.offset, c.neighbor, c.weight, u, l)
    ensures ParesDe(c, u) == l
  {
  }

  /** The CSR arrays built from lists `p` of pairs: well formed, `NEIGHBOR` as long as all
      lists together, each slice the sorted list of its node. */
  lemma CabeceraDeListas(adj: seq<seq<int>>, weight: seq<seq<nat>>, p: seq<seq<Par>>, c: Cabecera)
    requires Emparejadas(adj, weight, p) && c.node_count == |p|
    requires |c.offset| == |adj| + 1 && c.offset[0] == 0 && c.offset[|adj|] == |c.neighbor| == |c.weight|
    requires forall u :: 0 <= u < |adj| ==> TramoCsr(c.offset, c.neighbor, c.weight, u, Ordenar(Zip(adj[u], weight[u])))
    ensures Formada(c) && |c.neighbor| == Total(p)
    ensures forall u :: 0 <= u < |p| ==> Ordenada(ParesDe(c, u)) && multiset(ParesDe(c, u)) == multiset(p[u])
  {
    forall u | 0 <= u < |p|
      ensures TramoCsr(c.offset, c.neighbor, c.weight, u, Ordenar(p[u]))
    {
      assert Parejas(adj[u], weight[u], p[u]);
      assert Zip(adj[u], weight[u]) == p[u];
    }
    forall u | 0 <= u < |p|
      ensures Escalon(c, u)
    {
      assert TramoCsr(c.offset, c.neighbor, c.weight, u, Ordenar(p[u]));
    }
    forall u | 0 <= u < |p|
      ensures c.offset[u + 1] == c.offset[u] + |p[u]|
    {
      assert TramoCsr(c.offset, c.neighbor, c.weight, u, Ordenar(p[u]));
      assert |Ordenar(p[u])| == |multiset(Ordenar(p[u]))| == |multiset(p[u])| == |p[u]|;
    }
    OffsetTotal(c.offset, p, |p|);
    assert p[..|p|] == p;
    assert Formada(c);
    forall u | 0 <= u < |p|
      ensures Ordenada(ParesDe(c, u)) && multiset(ParesDe(c, u)) == multiset(p[u])
    {
      ParesDeTramo(c, u, Ordenar(p[u]));
    }
  }

  /** Offsets that grow by each list's length reach the total. */
  lemma {:induction false} OffsetTotal(offset: seq<int>, p: seq<seq<Par>>, u: int)
    requires 0 <= u <= |p| && |offset| == |p| + 1 && offset[0] == 0
    requires forall t :: 0 <= t < |p| ==> offset[t + 1] == offset[t] + |p[t]|
    ensures offset[u] == Total(p[..u])
  {
    if u > 0 {
      OffsetTotal(offset, p, u - 1);
      assert p[..u][..u - 1] == p[..u - 1];
    }
  }

  /** The weight the script means to give edge `u - v`: the distance between the kept
      nodes at positions `u` and `v`. */
  function PesoCorregido(filtrados: seq<Nodo>, dist: (Nodo, Nodo) -> nat): (int, int) -> nat
  {
    (u, v) => if 0 <= u < |filtrados| && 0 <= v < |filtrados| then dist(filtrados[u], filtrados[v]) else 0
  }

  /** The weight as the script writes it: the new positions are read in the unfiltered
      list of nodes. */
  function PesoEscrito(nodos: seq<Nodo>, dist: (Nodo, Nodo) -> nat): (int, int) -> nat
  {
    (u, v) => if 0 <= u < |nodos| && 0 <= v < |nodos| then dist(nodos[u], nodos[v]) else 0
  }

  /** With the intended lookup, the weight of a stored edge is the distance between the two
      node records carrying the ids of its ends. */
  lemma PesoCorregidoExtremos(filtrados: seq<Nodo>, dist: (Nodo, Nodo) -> nat, e: Arista)
    requires Conocida(IndiceDe(Ids(filtrados)), e)
    ensures var indice := IndiceDe(Ids(filtrados));
            var a, b := indice[e.desde], indice[e.hasta];
            0 <= a < |filtrados| && 0 <= b < |filtrados| &&
            filtrados[a].id == e.desde && filtrados[b].id == e.hasta &&
            PesoCorregido(filtrados, dist)(a, b) == dist(filtrados[a], filtrados[b])
  {
    IndiceUltimo(Ids(filtrados), e.desde);
    IndiceUltimo(Ids(filtrados), e.hasta);
  }

  /** As written, once a node is dropped before the ends of a kept edge, the weight is the
      distance between other nodes: here node 7 (degree 0) is dropped, edge 8 - 9 is kept
      with new indices 0 and 1, and its weight is read from nodes 7 and 8. */
  lemma PesoEscritoFalla(dist: (Nodo, Nodo) -> nat)
    ensures var nodos := [Nodo(7, 0.0, 0.0), Nodo(8, 1.0, 0.0), Nodo(9, 2.0, 0.0)];
            var aristas := [Arista(8, 9), Arista(9, 8)];
            var indice := IndiceDe(Ids(NodosConservados(nodos, aristas)));
            Conocida(indice, aristas[0]) && indice[8] == 0 && indice[9] == 1 &&
            nodos[indice[8]].id != 8 && nodos[indice[9]].id != 9 &&
            PesoEscrito(nodos, dist)(indice[8], indice[9]) == dist(nodos[0], nodos[1])
  {
    var nodos := [Nodo(7, 0.0, 0.0), Nodo(8, 1.0, 0.0), Nodo(9, 2.0, 0.0)];
    var aristas := [Arista(8, 9), Arista(9, 8)];
    assert aristas[..1] == [Arista(8, 9)] && aristas[..1][..0] == [];
    assert Grado(aristas[..1], 7) == 0 && Grado(aristas[..1], 8) == 1 && Grado(aristas[..1], 9) == 1;
    assert Grado(aristas, 7) == 0 && Grado(aristas, 8) == 2 && Grado(aristas, 9) == 2;
    var conservar := (n: Nodo) => Grado(aristas, n.id) >= 2;
    assert nodos[..2][..1] == [nodos[0]] && nodos[..2] == nodos[..1] + [nodos[1]];
    assert Filtro(nodos[..1], conservar) == [];
    assert NodosConservados(nodos, aristas) == [nodos[1], nodos[2]];
    assert Ids([nodos[1], nodos[2]]) == [8, 9];
  }

  /** The header's slices as lists of pairs, one per node. */
  ghost function Listas(c: Cabecera): seq<seq<Par>>
    requires Formada(c)
  {
    seq(c.node_count, u requires 0 <= u < c.node_count => ParesDe(c, u))
  }

  /** Lists holding the same pairs node by node agree on every property stated through
      membership or counts. */
  lemma MismasListas(p: seq<seq<Par>>, q: seq<seq<Par>>, n: nat, aristas: seq<Arista>,
                     indice: map<int, int>, peso: (int, int) -> nat)
    requires |p| == |q| && forall u :: 0 <= u < |p| ==> multiset(p[u]) == multiset(q[u])
    ensures Destinos(p, n) ==> Destinos(q, n)
    ensures Simetricas(p) ==> Simetricas(q)
    ensures Procedentes(p, aristas, indice, peso) ==> Procedentes(q, aristas, indice, peso)
    ensures Guardadas(p, aristas, indice, peso) ==> Guardadas(q, aristas, indice, peso)
  {
    forall u, x | 0 <= u < |p|
      ensures x in p[u] <==> x in q[u]
    {
      assert x in p[u] <==> x in multiset(p[u]);
      assert x in q[u] <==> x in multiset(q[u]);
    }
    if Guardadas(p, aristas, indice, peso) {
      forall k | 0 <= k < |aristas|
        ensures Guardada(q, indice, aristas[k], peso)
      {
        assert Guardada(p, indice, aristas[k], peso);
      }
    }
  }

  /** The whole script on the file's node ids and edges.  On success the header has one
      node per kept id and twice as many entries as kept edges; it is a well-formed graph;
      every node's slice is sorted; every entry stands for a kept edge and every kept edge
      has an entry at both its ends with the same weight.  It fails with `KeyError` exactly
      when a kept edge has an end that is not a node of the file, and the key it names is
      such an end. */
  method Convertir(nodos: seq<Nodo>, aristas: seq<Arista>, dist: (Nodo, Nodo) -> nat) returns (r: Resultado<Cabecera>)
    ensures r.ErrorClave? <==>
              exists k :: 0 <= k < |AristasConservadas(aristas)| && !Conocida(IndiceDe(Ids(NodosConservados(nodos, aristas))), AristasConservadas(aristas)[k])
    ensures r.ErrorClave? ==> r.clave !in Ids(nodos) && Grado(aristas, r.clave) >= 2
    ensures r.Exito? ==> var c := r.valor;
              Formada(c) && c.node_count == |NodosConservados(nodos, aristas)| &&
              |c.neighbor| == 2 * |AristasConservadas(aristas)| &&
              BienFormado(Grafo(c.offset, c.neighbor, c.weight, c.node_count))
    ensures r.Exito? ==> var c := r.valor;
              Formada(c) && Simetricas(Listas(c)) &&
              forall u :: 0 <= u < c.node_count ==> Ordenada(ParesDe(c, u))
    ensures r.Exito? ==> var c := r.valor;
              Formada(c) &&
              Procedentes(Listas(c), AristasConservadas(aristas), IndiceDe(Ids(NodosConservados(nodos, aristas))),
                          PesoCorregido(NodosConservados(nodos, aristas), dist)) &&
              Guardadas(Listas(c), AristasConservadas(aristas), IndiceDe(Ids(NodosConservados(nodos, aristas))),
                          PesoCorregido(NodosConservados(nodos, aristas), dist))
  {
    var grado := CalcularGrado(aristas);
    var validos := Validos(grado);
    var filtrados := NodosFiltrados(nodos, validos);
    var indice := IndiceDe(Ids(filtrados));
    var node_count := |filtrados|;
    var peso := PesoCorregido(filtrados, dist);
    var edges := AristasFiltradas(aristas, validos);
    Conservados(nodos, aristas, grado);
    IndiceEnRango(Ids(filtrados));
    ListasExito(edges, indice, node_count, peso);
    var listas := ConstruirListas(edges, indice, node_count, peso);
    if listas.ErrorClave? {
      ClaveFaltante(nodos, aristas, listas.clave);
      return ErrorClave(listas.clave);
    }
    var adj, weight := listas.valor.0, listas.valor.1;
    ghost var p := ListasDe(edges, indice, node_count, peso).valor;
    assert |adj| == |weight| && forall u :: 0 <= u < |adj| ==> |adj[u]| == |weight[u]| by {
      forall u | 0 <= u < |adj| ensures |adj[u]| == |weight[u]| {
        assert Parejas(adj[u], weight[u], p[u]);
      }
    }
    var offset, neighbor, pesos := ConstruirCsr(adj, weight);
    var c := Cabecera(node_count, offset, neighbor, pesos);
    CabeceraDeListas(adj, weight, p, c);
    ListasCorrectas(edges, indice, node_count, peso);
    ListasOrigen(edges, indice, node_count, peso);
    MismasListas(p, Listas(c), node_count, edges, indice, peso);
    CabeceraCorrecta(c);
    return Exito(c);
  }

  /** The id a failed lookup names is kept (an end of a kept edge, so of degree at least 2)
      yet not the id of any node of the file. */
  lemma ClaveFaltante(nodos: seq<Nodo>, aristas: seq<Arista>, clave: int)
    requires clave !in IndiceDe(Ids(NodosConservados(nodos, aristas)))
    requires exists k :: 0 <= k < |AristasConservadas(aristas)| && Extremo(AristasConservadas(aristas)[k], clave)
    ensures clave !in Ids(nodos) && Grado(aristas, clave) >= 2
  {
    var conservadas := AristasConservadas(aristas);
    var k :| 0 <= k < |conservadas| && Extremo(conservadas[k], clave);
    FiltroMiembros(aristas, (e: Arista) => Grado(aristas, e.desde) >= 2 && Grado(aristas, e.hasta) >= 2, conservadas[k]);
    var retenidos := NodosConservados(nodos, aristas);
    IndiceUltimo(Ids(retenidos), clave);
    forall i | 0 <= i < |nodos|
      ensures Ids(nodos)[i] != clave
    {
      FiltroMiembros(nodos, (n: Nodo) => Grado(aristas, n.id) >= 2, nodos[i]);
      if nodos[i] in retenidos {
        var j :| 0 <= j < |retenidos| && retenidos[j] == nodos[i];
        assert Ids(retenidos)[j] == nodos[i].id;
      }
    }
  }

  /** A header whose slices only name nodes is a well-formed graph. */
  lemma CabeceraCorrecta(c: Cabecera)
    requires Formada(c) && Destinos(Listas(c), c.node_count)
    ensures BienFormado(Grafo(c.offset, c.neighbor, c.weight, c.node_count))
  {
    var g := Grafo(c.offset, c.neighbor, c.weight, c.node_count);
    forall u | 0 <= u < g.n
      ensures Tramo(g, u)
    {
      assert Escalon(c, u);
      var l := ParesDe(c, u);
      forall i | g.offset[u] <= i < g.offset[u + 1]
        ensures 0 <= g.vecinos[i] < g.n
      {
        var x := l[i - c.offset[u]];
        assert x.0 == c.neighbor[i];
        assert x in Listas(c)[u];
      }
    }
  }
}
