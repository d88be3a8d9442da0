# Graph search engine — a Dafny model

This project models the core of a route-search engine for a road network and for large
synthetic city maps. The graph is stored in compressed sparse row (CSR) form: node `u`'s
outgoing edges are the indices `[offset[u], offset[u+1])` of the parallel arrays of
targets and weights. Over it the engine runs five searches:

- breadth-first search (BFS);
- depth-first search (DFS);
- greedy best-first search;
- Dijkstra;
- A*.

Every search writes the path it finds into a caller's buffer. It follows the predecessor
chain of the destination and then reverses the buffer in place.

The model covers, one Dafny module per source file:

- **`Estructuras`** (`estructuras.h`): the fixed-size `ColaInt` ring queue of the
  small-graph searches.
- **`EstructurasGrandes`** (`estructuras_grandes.h`): the containers of the large-graph
  searches. These are the ring queue `ColaGrande`, the array-backed binary min-heap
  `ColaPrioridadGrande` (duplicates allowed), the stack `StackGrande` and the bump-allocating
  `MemoryPool`. Each is a class whose methods update its fields and arrays in place.
- **`GrafoGrande`** (`grafo_grande.h`, `grafo_grande.cpp`): the `GrafoGrande` class. It is
  built in two phases: edges are appended while `offset[u+1]` counts them, and
  `finalizar_construccion` turns the counts into prefix sums. The module also holds the
  global graph's accessors.
- **`GrafoMalla`** (`grafo_grande.cpp`): the graph built from the obstacle mesh. Every
  transitable cell is a node. It has an edge to each transitable side neighbour, and to a
  transitable corner neighbour only when a parity test allows it.
- **`MallaObstaculos`** (`malla_obstaculos.h`, `malla_obstaculos.cpp`): the obstacle mesh.
  The model covers its cell types, its bounds-checked accessors, and the row-major
  numbering of transitable cells. It also covers the top-up pass that frees cells when too
  few nodes result, the main roads, the rectangular buildings and majority smoothing.
- **`Csr`, `Caminos`, `Relajacion`**: the graph view shared by all searches, the
  path reconstruction, and the predecessor-tree argument of the searches whose relaxation
  ignores `visitado`.
- **`AlgoritmosGrandes`** (`algoritmos_grandes.cpp`): the five large-graph searches. Each
  returns no path when there is no graph or an endpoint is out of range, and each
  reconstructs a path only when it has reached the destination.
- **`DijkstraGrande`** (`dijkstra_grande.cpp`): the other Dijkstra and A* over all
  `MAX_NODES_LARGE` slots. Distances start at floating-point infinity, and relaxation does
  not consult `visitado`. Dijkstra rebuilds a path only when the destination has a
  predecessor, so `origen == destino` yields no path there, while A* yields `[origen]`.
- **`Bfs`, `Dfs`, `Dijkstra`, `BestFirstSearch`, `AEstrella`** (`bfs.cpp`, `dfs.cpp`,
  `dijkstra.cpp`, `best_first_search.cpp`, `a_estrella.cpp`): the small-graph searches.
  Their reconstruction always runs, so an unreachable destination yields the one-node
  buffer `[destino]`. `dfs.cpp` is the exception: it rebuilds only when the destination
  was found.
- **`Convertir`** (`convertir.py`): the script that turns the JSON road network into the
  small graph's CSR arrays.
  - It drops nodes with fewer than two edge ends.
  - It renumbers the kept nodes.
  - It stores every kept edge in both directions.
  - It sorts each node's `(neighbour, weight)` pairs.
  - A `KeyError` becomes an error result.

For every search the model proves:

- the returned prefix of the buffer is a repetition-free walk along CSR edges from the
  origin to the destination, or the source's documented fallback (no path, or
  `[destino]`);
- `origen == destino` gives what the source gives;
- the predecessor chain is finite, because a ghost rank decreases along it (the visit
  order, or (distance, last-update stamp) for lazy relaxation).

For the searches that expand each node once (BFS, DFS, greedy best-first) the model also
proves completeness: a path is returned exactly when the destination is reachable. The
recursive `dfs.cpp` search has no container, so this holds unconditionally there. The
others hold it as long as their fixed-size container cannot drop an insertion:

- the BFS ring queues have more slots than the graph has nodes;
- the DFS stack and the heap have at least as many slots as the graph has edges.

The proof rests on a frontier invariant. Every visited node whose slice has been scanned
has all of its out-neighbours visited or waiting in the container. When the container
runs empty, the visited set is closed under edges, so it holds every reachable node.

Containers are proved against sequence and multiset views of their contents. The main
examples:

- FIFO order for the queues, LIFO order for the stack;
- heap order for the priority queue, and extraction in non-decreasing priority as a
  permutation of what was inserted;
- the block discipline of the pool.

Floating-point distances and priorities are modelled as integers. "Unreached" is either
the source's sentinel constant `1e9` or a separate state standing for infinity. The
Euclidean heuristics are a parameter `h`, and random draws are parameters.

In `dfs.cpp` a frame still pending when the destination is found keeps scanning its
neighbours. Each unvisited neighbour still gets a predecessor, although the call made on
it returns at once. So a predecessor can be written more than once there; the path is
unaffected, and the model follows the code.

## Model

| member | source | states |
|---|---|---|
| Estructuras.ColaInt.Contents | estructuras.h:6-9 | the queued items run from `frente` to `fin` around the ring, so there are `fin - frente` of them (or `TAM_MAX - frente + fin` once wrapped), always fewer than `TAM_MAX` |
| Estructuras.ColaInt.Cuenta | estructuras.h:21-23 | the number of queued items is `(fin - frente) mod TAM_MAX`, the quantity `llena` compares |
| Estructuras.ColaInt.constructor | estructuras.h:12-15 | a new queue has `frente == fin == 0` and is empty |
| Estructuras.ColaInt.Vacia | estructuras.h:17-19 | true exactly when nothing is queued |
| Estructuras.ColaInt.Llena | estructuras.h:21-23 | true exactly when `TAM_MAX - 1` items are queued (one slot always stays free) |
| Estructuras.ColaInt.Encolar | estructuras.h:25-30 | appends the value at the back, or changes nothing when the queue is full |
| Estructuras.ColaInt.Desencolar | estructuras.h:32-39 | returns and removes the oldest item; on an empty queue returns -1 and leaves both indices as they were |
| EstructurasGrandes.Siguiente | estructuras_grandes.h:36 | advancing a ring index by one wraps to 0 exactly at the capacity |
| EstructurasGrandes.Ocupados | estructuras_grandes.h:29-31 | the occupied length of the ring is `(fin - frente) mod capacidad` |
| EstructurasGrandes.ColaGrande.Contents | estructuras_grandes.h:8-11 | the queued items, oldest first; fewer than `capacidad` of them |
| EstructurasGrandes.ColaGrande.constructor | estructuras_grandes.h:14-19 | a new queue of capacity `cap` is empty |
| EstructurasGrandes.ColaGrande.Vacia | estructuras_grandes.h:25-27 | true exactly when nothing is queued |
| EstructurasGrandes.ColaGrande.Llena | estructuras_grandes.h:29-31 | true exactly when `capacidad - 1` items are queued |
| EstructurasGrandes.ColaGrande.Encolar | estructuras_grandes.h:33-38 | appends the value at the back, or changes nothing when the queue is full |
| EstructurasGrandes.ColaGrande.Desencolar | estructuras_grandes.h:40-47 | returns and removes the oldest item; -1 and no change when empty |
| EstructurasGrandes.ColaGrande.Limpiar | estructuras_grandes.h:49-52 | the queue is empty afterwards |
| EstructurasGrandes.StackGrande.Contents | estructuras_grandes.h:123-127 | the stacked items, bottom first; `tope + 1` of them, at most `capacidad` |
| EstructurasGrandes.StackGrande.constructor | estructuras_grandes.h:130-134 | a new stack of capacity `cap` is empty (`tope == -1`) |
| EstructurasGrandes.StackGrande.Vacio | estructuras_grandes.h:140-142 | true exactly when nothing is stacked |
| EstructurasGrandes.StackGrande.Lleno | estructuras_grandes.h:144-146 | true exactly when `capacidad` items are stacked |
| EstructurasGrandes.StackGrande.Apilar | estructuras_grandes.h:148-152 | pushes the value on top, or changes nothing when the stack is full |
| EstructurasGrandes.StackGrande.Desapilar | estructuras_grandes.h:154-159 | returns and removes the top item; -1 and no change when empty |
| EstructurasGrandes.StackGrande.Limpiar | estructuras_grandes.h:161-163 | the stack is empty afterwards |
| EstructurasGrandes.PadreDe | estructuras_grandes.h:91-93 | slot `(j - 1) / 2` is the parent of slot `j > 0` and comes before it |
| EstructurasGrandes.RaizMinima | estructuras_grandes.h:98-101 | in a min-heap the root's priority is at most every entry's |
| EstructurasGrandes.Intercambio | estructuras_grandes.h:110-111 | exchanging two slots keeps the multiset of entries |
| EstructurasGrandes.SubidaPaso | estructuras_grandes.h:91-94 | moving the parent down into the hole keeps the sift-up invariant with the hole one level up |
| EstructurasGrandes.SubidaFin | estructuras_grandes.h:95 | when the loop stops, writing the new entry into the hole gives a min-heap |
| EstructurasGrandes.BajadaPaso | estructuras_grandes.h:105-112 | moving the smaller child up into the hole keeps the sift-down invariant with the hole one level down |
| EstructurasGrandes.BajadaFin | estructuras_grandes.h:108-113 | when the loop stops, writing the last entry into the hole gives a min-heap |
| EstructurasGrandes.HijosNoMenores | estructuras_grandes.h:106-109 | if the smaller child is not below the moving priority, no child is |
| EstructurasGrandes.Desplazar | estructuras_grandes.h:110-111 | copying the child up and refilling the hole equals the swap the proof reasons about |
| EstructurasGrandes.Flotado | estructuras_grandes.h:90-95 | sift-up on a sequence keeps its length |
| EstructurasGrandes.FlotadoCorrecto | estructuras_grandes.h:87-96 | sift-up from a hole in a heap yields a min-heap holding the old entries plus the new one |
| EstructurasGrandes.HijoElegido | estructuras_grandes.h:105-107 | the child chosen is one of minimal priority among the hole's children (the left one on ties) |
| EstructurasGrandes.Hundido | estructuras_grandes.h:104-113 | sift-down on a sequence keeps its length |
| EstructurasGrandes.HundidoCorrecto | estructuras_grandes.h:98-115 | sift-down from the root hole yields a min-heap holding the old entries plus the entry put in |
| EstructurasGrandes.FlotadoHueco | estructuras_grandes.h:90-95 | what sits in the hole does not affect the sift-up result |
| EstructurasGrandes.Insertado | estructuras_grandes.h:87-96 | the heap after an insertion has one more entry |
| EstructurasGrandes.InsertadoCorrecto | estructuras_grandes.h:87-96 | insertion keeps a min-heap and adds exactly the new entry |
| EstructurasGrandes.SinRaiz | estructuras_grandes.h:98-115 | the heap after extraction has one entry fewer |
| EstructurasGrandes.SinRaizCorrecto | estructuras_grandes.h:98-115 | extraction removes a root of minimal priority and keeps a min-heap of the others |
| EstructurasGrandes.QuitarRaiz | estructuras_grandes.h:101-102 | moving the last entry into the root slot removes exactly the root from the multiset |
| EstructurasGrandes.ColaPrioridadGrande.constructor | estructuras_grandes.h:69-73 | a new heap of capacity `cap` is empty |
| EstructurasGrandes.ColaPrioridadGrande.Vacia | estructuras_grandes.h:79-81 | true exactly when the heap holds nothing |
| EstructurasGrandes.ColaPrioridadGrande.Llena | estructuras_grandes.h:83-85 | true exactly when the heap holds `capacidad` entries |
| EstructurasGrandes.ColaPrioridadGrande.Insertar | estructuras_grandes.h:87-96 | a full heap is left unchanged; otherwise the count grows by one, the slots hold the sift-up result and the contents gain the entry `(id, prioridad)` |
| EstructurasGrandes.ColaPrioridadGrande.ExtraerMin | estructuras_grandes.h:98-115 | on an empty heap returns -1; otherwise returns the id of an entry of minimal priority, removes that entry and keeps a min-heap |
| EstructurasGrandes.ColaPrioridadGrande.Limpiar | estructuras_grandes.h:117-119 | the heap is empty afterwards |
| EstructurasGrandes.Subir | estructuras_grandes.h:90-95 | the sift-up loop leaves the array prefix equal to the sift-up function of the old prefix |
| EstructurasGrandes.Hundir | estructuras_grandes.h:104-113 | the sift-down loop leaves the array prefix equal to the sift-down function of the old prefix |
| EstructurasGrandes.OrdenPorPrioridad | estructuras_grandes.h:87-115 | inserting every entry and then extracting until empty returns the ids of a permutation of the entries in non-decreasing priority order (heap sort) |
| EstructurasGrandes.Cargar | estructuras_grandes.h:69-96 | a heap whose capacity is the number of entries, filled by insertion holds exactly the entries |
| EstructurasGrandes.Prefijo | estructuras_grandes.h:87-96 | a prefix one longer adds one entry to the multiset |
| EstructurasGrandes.AgregarOrdenada | estructuras_grandes.h:98-115 | appending an entry not below the last keeps the extraction order sorted |
| EstructurasGrandes.AgregarId | estructuras_grandes.h:114 | the returned ids follow the extracted entries position by position |
| EstructurasGrandes.PasoExtraccion | estructuras_grandes.h:98-115 | one extraction keeps the loop invariant: extracted entries sorted, none above what remains |
| EstructurasGrandes.Vaciar | estructuras_grandes.h:98-115 | extracting until empty lists the old contents, as a permutation, in non-decreasing priority |
| EstructurasGrandes.Traspaso | estructuras_grandes.h:98-115 | moving one entry from the heap to the output keeps their union |
| EstructurasGrandes.Marcar | estructuras_grandes.h:189-191 | exactly the flags in `[desde, desde + tam)` get the new value, the others keep theirs |
| EstructurasGrandes.MemoryPool.constructor | estructuras_grandes.h:176-179 | a new pool has `siguiente_libre == 0` and no slot in use |
| EstructurasGrandes.MemoryPool.ObtenerArray | estructuras_grandes.h:186-196 | when the block fits, returns the old `siguiente_libre`, marks the block used and advances `siguiente_libre` past it; otherwise returns none and changes nothing |
| EstructurasGrandes.MemoryPool.LiberarArray | estructuras_grandes.h:198-207 | clears the block's flags; `siguiente_libre` moves back only when the block was the last one handed out |
| EstructurasGrandes.MemoryPool.Reset | estructuras_grandes.h:209-214 | `siguiente_libre` returns to 0 and no slot is in use |
| GrafoGrande.MaxAristas | grafo_grande.h:6-8 | the edge capacity is 2 000 000 nodes times average degree 6, i.e. 12 000 000 |
| GrafoGrande.Acumulado | grafo_grande.cpp:55-57 | a prefix sum of non-negative counters is non-negative |
| GrafoGrande.AcumuladoCreciente | grafo_grande.cpp:55-57 | prefix sums of non-negative counters never decrease |
| GrafoGrande.Cuenta | grafo_grande.cpp:45 | the number of edges added from `u` is at most the number of edges, and 0 exactly when no edge came from `u` |
| GrafoGrande.Menores | grafo_grande.cpp:55-57 | the number of edges added from nodes below `u` is at most the number of edges, and all of them exactly when every origin is below `u` |
| GrafoGrande.MenoresSiguiente | grafo_grande.cpp:55-57 | the edges from nodes below `u + 1` are those from nodes below `u` plus those from `u` |
| GrafoGrande.MenoresCero | grafo_grande.cpp:55-57 | no edge comes from a node below 0 |
| GrafoGrande.AgregarOrigen | grafo_grande.cpp:42-46 | adding an edge from `u` raises the count of `u` and of every bound above `u` by one |
| GrafoGrande.AcumuladoDeCuentas | grafo_grande.cpp:53-58 | the prefix sum of the counters up to `u` is the number of edges added from nodes below `u` |
| GrafoGrande.MenoresPrefijo | grafo_grande.cpp:53-58 | with origins in non-decreasing order, the edges from nodes below `u` are exactly the first ones |
| GrafoGrande.TramoOrdenado | grafo_grande.cpp:53-58 | with origins in non-decreasing order, the slice `[offset[u], offset[u+1])` holds exactly the edges added from `u` |
| GrafoGrande.GrafoGrande.Vista | grafo_grande.h:13-19 | the graph the searches see has the object's node count, offsets, neighbours and weights |
| GrafoGrande.GrafoGrande.VistaCompleta | grafo_grande.h:13-15 | the same arrays seen over all `MAX_NODES_LARGE` slots |
| GrafoGrande.GrafoGrande.constructor | grafo_grande.cpp:13-19 | a new graph has no node, no offset, no edge and no position |
| GrafoGrande.GrafoGrande.Inicializar | grafo_grande.cpp:23-40 | every array is emptied, `num_nodos` is 0 and there are `MAX_NODES_LARGE + 1` zero counters; the result is `true` |
| GrafoGrande.GrafoGrande.AgregarArista | grafo_grande.cpp:42-46 | appends the target and the weight and adds one to counter `origen + 1`; nothing else changes |
| GrafoGrande.GrafoGrande.AgregarPosicion | grafo_grande.cpp:48-51 | appends the two coordinates; nothing else changes |
| GrafoGrande.GrafoGrande.FinalizarConstruccion | grafo_grande.cpp:53-58 | the in-place loop turns counter `u` into the sum of counters `0 .. u`; nothing else changes |
| GrafoGrande.GrafoGrande.FinalizadoDeContando | grafo_grande.cpp:42-58 | after counting edges and finalizing, `offset[u]` is the number of edges added from nodes below `u` |
| GrafoGrande.GrafoGrande.OffsetsFinales | grafo_grande.cpp:53-58 | finalized offsets start at 0, never decrease and end at the number of edges; when edges were added by non-decreasing origin, slice `u` holds exactly the edges from `u` |
| GrafoGrande.GrafoGrande.ContarAristas | grafo_grande.cpp:60-62 | the edge count is the last offset |
| GrafoGrande.GrafoGrande.MemoriaUsada | grafo_grande.cpp:64-72 | never negative; on a finalized graph it is 4 bytes per offset slot, 8 per edge and 8 per position |
| GrafoGrande.GrafoGrande.Getters | grafo_grande.h:31-37 | on a ready graph the getters read node `u`'s slice inside the arrays, `v` is a neighbour of `u` exactly when some index of the slice holds it, and the node count is at most `MAX_NODES_LARGE` |
| GrafoGrande.MenoresMonotono | grafo_grande.cpp:55-57 | counting origins below a larger bound never gives fewer |
| GrafoGrande.ContarAristasGrandes | grafo_grande.cpp:292-295 | 0 without a graph, otherwise its edge count |
| GrafoGrande.ObtenerNumNodosReales | grafo_grande.cpp:297-300 | 0 without a graph, otherwise its node count |
| GrafoMalla.RectosMiembros | grafo_grande.cpp:220-231 | an id is in the side part of a list exactly when it is not -1 and one of the side moves tried so far reaches a cell with that id |
| GrafoMalla.CruzadosMiembros | grafo_grande.cpp:234-247 | an id is in the corner part exactly when it is not -1, a corner move tried so far reaches a cell with that id, and `(nodo + nx + ny)` is even |
| GrafoMalla.VecinosMallaMiembros | grafo_grande.cpp:216-247 | the edge rule: `v` is in a node's list exactly when it is the id, other than -1, of a side neighbour or of a corner neighbour passing the parity test |
| GrafoMalla.RectoEn | grafo_grande.cpp:220-231 | a side neighbour with an id is always listed |
| GrafoMalla.IdDeNodo | grafo_grande.cpp:186 | in a numbered mesh a cell has an id other than -1 exactly when it is a FREE cell inside the grid, and that id is a node number |
| GrafoMalla.VecinosSonNodos | grafo_grande.cpp:216-247 | every listed neighbour is a node, below the number of nodes mapped |
| GrafoMalla.LadosSimetricos | grafo_grande.cpp:220-231 | side edges go both ways: two FREE cells side by side each list the other |
| GrafoMalla.ConectarNodo | grafo_grande.cpp:217-247 | the two loops over the moves build exactly the node's list, sides first, then corners |
| GrafoMalla.FilasNumeradas | grafo_grande.cpp:183-200 | in a numbered mesh each row's FREE cells carry the ids following the FREE cells of the rows above |
| GrafoMalla.MapearNodos | grafo_grande.cpp:181-200 | the mapping loop finds exactly `next_node_id` nodes, places node `v` at the FREE cell whose id is `v`, and pushes one position per node, in order |
| GrafoMalla.MapearFila | grafo_grande.cpp:185-195 | one row of the mapping extends the node count by the row's FREE cells, each placed at its cell |
| GrafoMalla.AplanarUnir | grafo_grande.cpp:259-269 | flattening a concatenation of lists concatenates the flattened parts |
| GrafoMalla.AplanarLongitud | grafo_grande.cpp:259-269 | lists of equal lengths flatten to sequences of equal length |
| GrafoMalla.Rotulos | grafo_grande.cpp:259-268 | the origin of every edge added is the index of the list it came from |
| GrafoMalla.Contadores | grafo_grande.cpp:259-269 | after the lists of the first `n` nodes are added, counter `u + 1` holds the length of list `u` for `u < n` and 0 beyond |
| GrafoMalla.TramoAplanado | grafo_grande.cpp:259-269 | list `u` sits in the flattened lists right after the lists of the nodes before it |
| GrafoMalla.RotulosAplanados | grafo_grande.cpp:259-269 | the same place in the flattened origins holds copies of `u` only |
| GrafoMalla.AcumuladoContadores | grafo_grande.cpp:53-58 | the finalized offset of `u` is the total length of the lists before `u` |
| GrafoMalla.CargadosPaso | grafo_grande.cpp:260-268 | one `agregar_arista` extends the arrays by one entry of the current list |
| GrafoMalla.CargadosCierre | grafo_grande.cpp:259-269 | after a whole list the arrays hold exactly the lists of the nodes so far |
| GrafoMalla.AgregarLista | grafo_grande.cpp:260-269 | the inner loop adds node `nodo`'s list, each edge weighing `peso` of its two ends |
| GrafoMalla.AgregarAristas | grafo_grande.cpp:259-274 | step 4 leaves the counters of the lists, the lists laid end to end, their origins, and every weight equal to `peso` of origin and target |
| GrafoMalla.GenerarAdyacencias | grafo_grande.cpp:207-254 | step 3 gives each node the list of the edge rule at its cell, and every listed neighbour is a node |
| GrafoMalla.TramoConstruido | grafo_grande.cpp:259-279 | after finalizing, node `u`'s slice holds exactly its list, each edge weighing `peso(u, v)` |
| GrafoMalla.TramoDeLista | grafo_grande.cpp:259-279 | a slice holding a list of nodes is a well-formed slice of the graph |
| GrafoMalla.ConstruirGrafo | grafo_grande.cpp:181-279 | steps 2-4: one node per FREE cell, node `u` at the cell whose id is `u`, positions in order, and a ready CSR graph whose slice `u` is exactly `u`'s list under the edge rule, with non-negative weights |
| GrafoMalla.CargarGrafo | grafo_grande.cpp:181-274 | steps 2-4 up to the edge loop: positions, the lists of the edge rule, and the counted, flattened arrays |
| GrafoMalla.CerrarGrafo | grafo_grande.cpp:277-279 | setting the node count and finalizing yields a ready graph whose slices hold the lists |
| GrafoMalla.Enlazado | grafo_grande.cpp:259-279 | the arrays built from lists of nodes form a well-formed graph with non-negative weights whose slices are the lists |
| GrafoMalla.GenerarGrafoConMallaObstaculos | grafo_grande.cpp:159-290 | for any draws the call succeeds with a ready graph with non-negative weights over the mesh generated from those draws (returned as a ghost): one node per FREE cell, node `u` placed at the FREE cell whose id is `u`, and `u`'s slice exactly its neighbour list under the edge rule at that cell, each edge weighing `peso` of its ends |
| GrafoMalla.GrafoDeMalla | grafo_grande.cpp:181-279 | a freshly initialized graph built from a numbered mesh is ready with non-negative weights, one node per id, node `u` positioned at the cell whose id is `u`, and `u`'s slice exactly its neighbour list under the edge rule, each edge weighing `peso` of its ends |
| GrafoMalla.NuevaMalla | grafo_grande.cpp:170-174 | the fresh mesh holds exactly the grid generated from the draws over an all-FREE grid, numbered, with as many ids as FREE cells |
| MallaObstaculos.Valor | malla_obstaculos.h:12-17 | each cell type has the enum value 0-3 given in its declaration, and the value is the type's place in the key order |
| MallaObstaculos.LibresFila | malla_obstaculos.cpp:42-47 | a row has no more FREE cells before `x` than cells |
| MallaObstaculos.LibresFilaCrece | malla_obstaculos.cpp:42-47 | counting FREE cells further along a row never gives fewer |
| MallaObstaculos.LibresAntesCrece | malla_obstaculos.cpp:42-47 | counting FREE cells over more rows never gives fewer |
| MallaObstaculos.OrdenCreciente | malla_obstaculos.cpp:42-47 | the row-major numbering is strictly increasing: a FREE cell gets a smaller id than every later cell |
| MallaObstaculos.OrdenAcotado | malla_obstaculos.cpp:42-47 | every FREE cell's id is below the number of FREE cells |
| MallaObstaculos.LibresAntesAcotado | malla_obstaculos.cpp:42-47 | the rows above `y` hold at most `y * GRID_WIDTH` FREE cells |
| MallaObstaculos.LibresFilaAlcanza | malla_obstaculos.cpp:43-47 | every number below a row's FREE count is the rank of one of its FREE cells |
| MallaObstaculos.OrdenAlcanza | malla_obstaculos.cpp:42-47 | every number below the FREE count of the rows above `y` is the id of some FREE cell there |
| MallaObstaculos.SinIds | malla_obstaculos.cpp:13 | the initial ids: -1 on every cell |
| MallaObstaculos.TodoLibre | malla_obstaculos.cpp:12 | the initial grid: FREE on every cell |
| MallaObstaculos.NumeradoBiyectivo | malla_obstaculos.cpp:40-47 | after numbering from all -1, a cell has an id exactly when it is FREE, the ids are below the FREE count, no two cells share one, and every id below the count is used |
| MallaObstaculos.IgualesPorCeldas | malla_obstaculos.h:22-23 | two grids of the mesh's dimensions that agree on every cell are the same grid |
| MallaObstaculos.Celdas | malla_obstaculos.h:22 | a grid of the mesh's dimensions whose every cell is the given function of its coordinates |
| MallaObstaculos.Superpuesta | malla_obstaculos.cpp:83-94 | the grid after the random obstacles, or after the rivers and lakes, given as a layer of draws; keeps the mesh's dimensions |
| MallaObstaculos.ConEdificios | malla_obstaculos.cpp:96-115 | the grid after the buildings, every cell under one of them BUILDING; keeps the mesh's dimensions |
| MallaObstaculos.Min | malla_obstaculos.cpp:109-110 | `min`: a lower bound of both arguments equal to one of them |
| MallaObstaculos.ConCarreteras | malla_obstaculos.cpp:172-198 | the grid after the roads, every cell of a road band FREE; keeps the mesh's dimensions |
| MallaObstaculos.Reducida | malla_obstaculos.cpp:60-66 | the grid after the fallback; keeps the mesh's dimensions |
| MallaObstaculos.Generada | malla_obstaculos.cpp:16-80 | the grid `generar_malla` leaves behind; keeps the mesh's dimensions |
| MallaObstaculos.Moldeada | malla_obstaculos.cpp:22-36 | the grid after steps 1 to 5; keeps the mesh's dimensions |
| MallaObstaculos.ConRespaldo | malla_obstaculos.cpp:57-66 | the grid after the check on 1 800 000 FREE cells; keeps the mesh's dimensions |
| MallaObstaculos.NumeradoEncadenado | malla_obstaculos.cpp:68-76 | numbering a second time after cells were only freed gives the ids a single numbering of the final grid would give |
| MallaObstaculos.LibresFilaMonotona | malla_obstaculos.cpp:60-66 | freeing cells never lowers a row's FREE count |
| MallaObstaculos.LibresAntesMonotona | malla_obstaculos.cpp:60-66 | freeing cells never lowers the FREE count of the rows above a row |
| MallaObstaculos.ReducidaNoPierde | malla_obstaculos.cpp:57-77 | the fallback only frees cells, so it never lowers the number of nodes |
| MallaObstaculos.Veces | malla_obstaculos.cpp:253-257 | a type occurs at most as many times as there are entries |
| MallaObstaculos.VecesSuman | malla_obstaculos.cpp:253-257 | the counts of the four types add up to the number of entries |
| MallaObstaculos.Ventana | malla_obstaculos.cpp:253-257 | the 9 cells of the window, entry `k` being the cell at offset `(k % 3 - 1, k / 3 - 1)` |
| MallaObstaculos.EleccionMaxima | malla_obstaculos.cpp:260-268 | the scan of the map in key order keeps a type with the largest count, the one of lowest value among those tied |
| MallaObstaculos.MayoriaAbsoluta | malla_obstaculos.cpp:260-272 | a type holding at least 6 of the 9 window cells is the one the scan picks, with its count |
| MallaObstaculos.SuavizadoPorMayoria | malla_obstaculos.cpp:244-276 | the filter: an interior cell becomes the type holding at least 6 of its 9 window cells, otherwise (and on the border) keeps its type |
| MallaObstaculos.Suavizada | malla_obstaculos.cpp:244-276 | the smoothed grid; keeps the mesh's dimensions |
| MallaObstaculos.ContarUno | malla_obstaculos.cpp:255 | one `vecinos_count[c]++` keeps the map equal to the counts of the cells read so far |
| MallaObstaculos.ContarFila | malla_obstaculos.cpp:254-256 | the inner counting loop adds the three cells of one window row to the counts |
| MallaObstaculos.ContarVecinos | malla_obstaculos.cpp:252-257 | the map holds, for every type, its count in the window |
| MallaObstaculos.ContarMayoritario | malla_obstaculos.cpp:252-268 | the type and count the scan over the counted map picks |
| MallaObstaculos.AplicarSuavizadoObstaculos | malla_obstaculos.cpp:244-276 | the result is the smoothed grid, every cell decided on the grid before the filter |
| MallaObstaculos.SuavizarFila | malla_obstaculos.cpp:249-273 | row `y` of the copy becomes the smoothed row; every other row is untouched |
| MallaObstaculos.MallaConObstaculos.constructor | malla_obstaculos.cpp:11-14 | a new mesh is FREE everywhere, with every id -1 and no node |
| MallaObstaculos.MallaConObstaculos.EsTransitable | malla_obstaculos.cpp:200-203 | transitable cells are inside the grid, and a cell is transitable exactly when `get_cell_type` says FREE |
| MallaObstaculos.MallaConObstaculos.GetNodeId | malla_obstaculos.cpp:209-212 | -1 outside the grid, the cell's id inside |
| MallaObstaculos.MallaConObstaculos.GetCellType | malla_obstaculos.cpp:214-217 | OBSTACLE outside the grid, the cell's type inside |
| MallaObstaculos.MallaConObstaculos.GenerarMalla | malla_obstaculos.cpp:16-80 | always succeeds; the grid is the one the draws generate, its FREE cells are numbered in row-major order and `next_node_id` is their number |
| MallaObstaculos.MallaConObstaculos.AsegurarMinimo | malla_obstaculos.cpp:57-78 | below 1 800 000 nodes the fallback runs and the cells are numbered again; either way the ids are a row-major numbering of the final grid |
| MallaObstaculos.MallaConObstaculos.Transformar | malla_obstaculos.cpp:22-36 | steps 1 to 5 leave the shaped grid and touch no id |
| MallaObstaculos.MallaConObstaculos.Pintar | malla_obstaculos.cpp:112 | one cell write; nothing else changes |
| MallaObstaculos.MallaConObstaculos.Superponer | malla_obstaculos.cpp:83-94 | laying a layer of draws over the grid: each cell where the layer is not FREE takes the layer's type; no id changes |
| MallaObstaculos.MallaConObstaculos.SuperponerFila | malla_obstaculos.cpp:88-92 | one row of the layer laid over the grid; the other rows are untouched |
| MallaObstaculos.MallaConObstaculos.GenerarEdificiosRectangulares | malla_obstaculos.cpp:96-115 | every cell under one of the 500 drawn buildings, clipped to the grid, becomes BUILDING; nothing else changes |
| MallaObstaculos.MallaConObstaculos.ColocarEdificio | malla_obstaculos.cpp:109-113 | one building's cells, clipped with `min`, become BUILDING; nothing else changes |
| MallaObstaculos.MallaConObstaculos.ColocarTramo | malla_obstaculos.cpp:110-112 | one row of a building becomes BUILDING; nothing else changes |
| MallaObstaculos.MallaConObstaculos.GenerarCarreterasPrincipales | malla_obstaculos.cpp:172-198 | the cells of the ten horizontal and ten vertical bands of width 3 become FREE; nothing else changes |
| MallaObstaculos.MallaConObstaculos.TrazarHorizontal | malla_obstaculos.cpp:175-185 | the rows `y - 1 .. y + 1` inside the grid become FREE; nothing else changes |
| MallaObstaculos.MallaConObstaculos.TrazarVertical | malla_obstaculos.cpp:188-197 | the columns `x - 1 .. x + 1` inside the grid become FREE; nothing else changes |
| MallaObstaculos.MallaConObstaculos.ReducirObstaculos | malla_obstaculos.cpp:60-66 | every OBSTACLE cell whose row and column are multiples of 3 becomes FREE; nothing else changes |
| MallaObstaculos.MallaConObstaculos.ReducirFila | malla_obstaculos.cpp:61-65 | the same on row `y`; the other rows are untouched |
| MallaObstaculos.MallaConObstaculos.AsignarIds | malla_obstaculos.cpp:40-47 | every FREE cell gets its row-major rank, other cells keep their id, and `next_node_id` is the number of FREE cells |
| MallaObstaculos.MallaConObstaculos.AsignarFila | malla_obstaculos.cpp:43-47 | row `y`'s FREE cells get the ids following those of the rows above; the other rows are untouched |
| Csr.TramoDe | algoritmos_grandes.cpp:56-60 | on a well-formed graph, node `u`'s slice `[offset[u], offset[u+1])` lies inside the edge arrays and every target read in it is a node |
| Csr.AristaEn | algoritmos_grandes.cpp:59-60 | the target read at index `i` of `u`'s slice is a node joined to `u` by an edge |
| Csr.Extender | algoritmos_grandes.cpp:73-75 | a walk from the origin to `u` followed by an edge `u -> v` is a walk to `v` |
| Csr.Palomar | algoritmos_grandes.cpp:73-74 | a sequence of distinct nodes below `n` has at most `n` entries, so a repetition-free path fits the `camino` buffer |
| Csr.Cubrir | algoritmos_grandes.cpp:59-66 | when the target at the next edge index is visited or pending, the range of the slice whose targets are all visited or pending grows by one, and stays so as marks and pending nodes only grow |
| Csr.Ampliar | algoritmos_grandes.cpp:59-66 | the frontier invariant survives more marks and more open nodes, when every newly marked node is open and every node leaving the pending set is visited |
| Csr.ElementosPartes | algoritmos_grandes.cpp:62 | the set of a queue or stack's entries after an append, or without its first or last entry |
| Csr.Cerrar | algoritmos_grandes.cpp:56-66 | an open node whose out-neighbours are all visited or pending may be closed without breaking the frontier invariant |
| Csr.Cerradura | algoritmos_grandes.cpp:48-67 | when no node is open or pending, every node reachable from a visited origin is visited |
| Csr.Inalcanzable | algoritmos_grandes.cpp:48-67 | so a search that ends with the origin visited and the destination unvisited proves the destination unreachable |
| Csr.SalidasLibres | algoritmos_grandes.cpp:131-134 | the edges leaving unvisited nodes number between 0 and the edges of the graph prefix counted |
| Csr.SalidasVisitar | algoritmos_grandes.cpp:120-121 | visiting a node removes exactly its out-degree from the edges leaving unvisited nodes |
| Csr.SalidasAcotadas | algoritmos_grandes.cpp:131-134 | the edges leaving unvisited nodes are at most all edges, which bounds the DFS stack and the heap |
| Caminos.ArbolInicial | algoritmos_grandes.cpp:36-39 | the all -1 predecessor array is a predecessor tree rooted at the origin |
| Caminos.Enganchar | algoritmos_grandes.cpp:64 | linking a non-origin node to an anchored node along an edge keeps the tree and unanchors no node |
| Caminos.EnlaceDe | algoritmos_grandes.cpp:64-75 | in the tree, a set predecessor is the tail of an edge into the node, and is itself anchored |
| Caminos.Atras | algoritmos_grandes.cpp:72-76 | the chain the reconstruction loop follows starts at the destination |
| Caminos.Invertida | algoritmos_grandes.cpp:79-83 | the reversed sequence has the same length and entry `k` is entry `len - 1 - k` of the input |
| Caminos.InvertidaInvolucion | algoritmos_grandes.cpp:79-83 | reversing twice gives the sequence back |
| Caminos.AtrasAcotado | algoritmos_grandes.cpp:72-76 | the chain stays inside the array, never climbs in rank, and repeats no node |
| Caminos.SinRepetirInvertida | algoritmos_grandes.cpp:79-83 | reversal keeps a sequence repetition-free |
| Caminos.AtrasEsCamino | algoritmos_grandes.cpp:69-84 | in a predecessor tree the reversed chain of an anchored node is a walk from the origin to it |
| Caminos.Reconstruccion | algoritmos_grandes.cpp:69-84 | the reversed chain has at most `n` nodes and no repetition; it is a walk from the origin when the destination is anchored and just `[destino]` otherwise |
| Caminos.OrdenInicial | algoritmos_grandes.cpp:33-39 | with nothing visited the visit-order invariant holds |
| Caminos.RangoVisita | algoritmos_grandes.cpp:43-63 | the rank is the visit number for visited nodes and the visit count otherwise |
| Caminos.OrdenEnlazar | algoritmos_grandes.cpp:63-64 | giving an unvisited node a visited predecessor keeps the visit-order invariant |
| Caminos.OrdenVisitar | algoritmos_grandes.cpp:63 | visiting an anchored node gives it the next number, after its predecessor's |
| Caminos.EnOrdenDe | algoritmos_grandes.cpp:61-64 | a visited node has a number below the count and is anchored; a predecessor is visited, numbered before its child |
| Caminos.RangoVisitaDesciende | algoritmos_grandes.cpp:72-76 | the visit order decreases along every predecessor link, so the reconstruction loop ends |
| Caminos.Libres | algoritmos_grandes.cpp:48 | the number of unvisited nodes is at most `n`, and 0 exactly when every node is visited |
| Caminos.Visitar | algoritmos_grandes.cpp:63 | visiting an unvisited node lowers that number by one |
| Caminos.RecorridoInicial | algoritmos_grandes.cpp:33-39 | no visit and no predecessor: the search state holds |
| Caminos.RecorridoEnlazar | algoritmos_grandes.cpp:64 | linking an unvisited node to a visited one along an edge keeps the search state and anchors it |
| Caminos.RecorridoVisitar | algoritmos_grandes.cpp:63 | visiting an anchored node keeps the search state and frees one node fewer |
| Caminos.RecorridoRango | algoritmos_grandes.cpp:69-76 | the search state yields a rank that decreases along links, and a visited destination is anchored |
| Caminos.NuevoAnterior | algoritmos_grandes.cpp:34-39 | a fresh array of `n` entries, all -1 |
| Caminos.Recorrer | algoritmos_grandes.cpp:70-76 | the loop writes exactly the destination's predecessor chain into `camino[0..largo)` |
| Caminos.Invertir | algoritmos_grandes.cpp:79-83 | the swap loop reverses `camino[0..largo)` in place and leaves the rest of the buffer alone |
| Caminos.Reconstruir | algoritmos_grandes.cpp:69-84 | the buffer holds the reversed chain: between 1 and `n` distinct nodes, a walk from the origin to an anchored destination, `[destino]` otherwise |
| Caminos.ReconstruirRecorrido | algoritmos_grandes.cpp:69-84 | the same at the end of a search that keeps the search state; an origin equal to the destination gives `[origen]` |
| Relajacion.Sumar | dijkstra_grande.cpp:53 | adding a weight to infinity gives infinity, and to a finite distance the sum |
| Relajacion.Finitas | algoritmos_grandes.cpp:254 | integer distances seen as finite distances, entry by entry |
| Relajacion.FinitasActualizar | algoritmos_grandes.cpp:284 | changing one integer distance changes one finite distance |
| Relajacion.EscalonadoInicial | dijkstra_grande.cpp:23-28 | no predecessors and non-negative finite distances: the stamp invariant holds |
| Relajacion.Relajado | dijkstra_grande.cpp:53-57 | lowering `v`'s distance through `u` (no closer than `u`) keeps every predecessor strictly before its child in (distance, stamp) order; `u` is not `v` |
| Relajacion.PesoCreciente | dijkstra_grande.cpp:55 | flattening (distance, stamp) pairs into one number keeps their order |
| Relajacion.RangoDistancia | dijkstra_grande.cpp:55-57 | one rank per node |
| Relajacion.RangoDistanciaDesciende | dijkstra_grande.cpp:65-70 | under the stamp invariant the rank decreases along every predecessor link, so the reconstruction loop ends |
| Relajacion.PerezosoInicial | dijkstra_grande.cpp:23-31 | after the set-up the relaxation state holds with the origin alone in the heap |
| Relajacion.PerezosoExtraer | dijkstra_grande.cpp:36 | every node extracted from the heap is anchored, and the rest of the heap keeps the state |
| Relajacion.PerezosoRelajar | dijkstra_grande.cpp:55-58 | a successful relaxation along an edge, with the insertion kept or dropped, keeps the state |
| Relajacion.IniciarPerezoso | dijkstra_grande.cpp:17-31 | fresh arrays with no visit and no predecessor, and a heap holding only the origin with its key |
| Relajacion.EnlazarPerezoso | dijkstra_grande.cpp:56-58 | records the predecessor, lowers the distance, inserts the node, and keeps the relaxation state |
| Relajacion.ExtraerVisitar | dijkstra_grande.cpp:36-39 | extracts an anchored node and marks it; a node already visited leaves the marks as they were and the heap smaller |
| AlgoritmosGrandes.MarcarBFS | algoritmos_grandes.cpp:61-65 | enqueueing, marking and linking an unvisited neighbour of a visited node keeps the BFS state, whether the queue took it or was full, and leaves one node fewer to visit; when the queue took it, the frontier invariant is kept |
| AlgoritmosGrandes.DescubrirBFS | algoritmos_grandes.cpp:61-65 | the neighbour is marked and gets `actual` as predecessor; nothing else in the arrays changes, the BFS state holds and the loop measure does not grow; a ring with more slots than nodes appends it and keeps the frontier invariant |
| AlgoritmosGrandes.ExpandirBFS | algoritmos_grandes.cpp:56-66 | afterwards every neighbour of `actual` is visited, the BFS state holds and the loop measure does not grow; with a ring larger than the graph, `actual` is closed in the frontier invariant |
| AlgoritmosGrandes.CerrarBFS | algoritmos_grandes.cpp:56-66 | a dequeued node other than the destination, once all its neighbours are visited, leaves the frontier invariant holding with nothing open |
| AlgoritmosGrandes.EstadoInicialBFS | algoritmos_grandes.cpp:33-43 | with the origin alone enqueued and marked, the BFS state and the frontier invariant hold |
| AlgoritmosGrandes.DesencolarBFS | algoritmos_grandes.cpp:49-54 | dequeuing a node that is not the destination keeps the frontier invariant, the node now open |
| AlgoritmosGrandes.BucleBFS | algoritmos_grandes.cpp:48-67 | the loop ends with the BFS state; it reports the destination found only when it is visited, and always when it is the origin; with a ring larger than the graph, not found means the visited set is closed under edges and misses the destination |
| AlgoritmosGrandes.IniciarBFS | algoritmos_grandes.cpp:33-43 | fresh arrays and a `TAM_MAX_GRANDE`-slot queue holding only the origin, in the BFS state and the frontier invariant |
| AlgoritmosGrandes.BFSGrande | algoritmos_grandes.cpp:33-87 | any path returned is a repetition-free walk from origin to destination of at most `n` nodes; origin equal to destination gives `[origen]`; with fewer nodes than `TAM_MAX_GRANDE`, a path is returned exactly when the destination is reachable |
| AlgoritmosGrandes.BuscarBFSGrande | algoritmos_grandes.cpp:18-88 | no graph or an endpoint out of range gives `largo == 0` with the buffer untouched; otherwise as `BFSGrande`, including a path exactly when the destination is reachable in a graph of fewer than `TAM_MAX_GRANDE` nodes |
| AlgoritmosGrandes.ApilarDFS | algoritmos_grandes.cpp:133-138 | pushing an unvisited neighbour, and linking it only when it had no predecessor, keeps the DFS state whether the stack took it or was full |
| AlgoritmosGrandes.DesapilarDFS | algoritmos_grandes.cpp:118-121 | a popped node is a node; a visited one is dropped, an unvisited one is visited with one node fewer left, the DFS state kept either way |
| AlgoritmosGrandes.CompletoCubrir | algoritmos_grandes.cpp:131-138 | one more scanned edge whose target is visited or pending extends the covered range of the open node's slice, keeping the frontier invariant |
| AlgoritmosGrandes.CompletoInicial | algoritmos_grandes.cpp:105-113 | with nothing visited and one entry in the container, the edge-count bound and the frontier invariant hold |
| AlgoritmosGrandes.DesapilarCompleto | algoritmos_grandes.cpp:117-125 | popping a visited node keeps the frontier invariant; popping and visiting an unvisited node other than the destination keeps it with that node open |
| AlgoritmosGrandes.EstadoInicialDFS | algoritmos_grandes.cpp:105-113 | with the origin alone pushed and nothing visited, the DFS state holds |
| AlgoritmosGrandes.DescubrirDFS | algoritmos_grandes.cpp:133-138 | the first predecessor of a neighbour is kept: it is set to `actual` only when it was -1; the DFS state holds; the stack gets the neighbour on top when it has room and is unchanged when full |
| AlgoritmosGrandes.ExpandirDFS | algoritmos_grandes.cpp:128-139 | the neighbour loop keeps the DFS state and the bound of stack entries by unscanned edges; with a stack of at least as many slots as edges, `actual` is closed in the frontier invariant |
| AlgoritmosGrandes.PasoDFS | algoritmos_grandes.cpp:117-139 | one iteration keeps the DFS state and the entry bound; found means the destination is visited, and the origin is found at once; otherwise a node is visited or the stack shrinks with the marks unchanged; with enough slots the frontier invariant is kept |
| AlgoritmosGrandes.BucleDFS | algoritmos_grandes.cpp:117-140 | the loop ends with the DFS state; it reports the destination found only when it is visited, and always when it is the origin; with a stack of at least as many slots as edges, not found means the visited set holds the origin, is closed under edges and misses the destination |
| AlgoritmosGrandes.IniciarDFS | algoritmos_grandes.cpp:105-113 | fresh arrays and a `TAM_MAX_GRANDE`-slot stack holding only the origin, in the DFS state, the entry bound and the frontier invariant |
| AlgoritmosGrandes.DFSGrande | algoritmos_grandes.cpp:105-159 | any path returned is a repetition-free walk from origin to destination of at most `n` nodes; origin equal to destination gives `[origen]`; with at most `TAM_MAX_GRANDE` edges, a path is returned exactly when the destination is reachable |
| AlgoritmosGrandes.BuscarDFSGrande | algoritmos_grandes.cpp:91-160 | no graph or an endpoint out of range gives `largo == 0` with the buffer untouched; otherwise as `DFSGrande`, including a path exactly when the destination is reachable in a graph of at most `TAM_MAX_GRANDE` edges |
| AlgoritmosGrandes.EstadoInicialMonticulo | algoritmos_grandes.cpp:177-185 | with the origin alone in the heap and nothing visited, the heap-search state holds |
| AlgoritmosGrandes.ExtraerMonticulo | algoritmos_grandes.cpp:190-198 | an extracted node is anchored; a visited one is skipped, an unvisited one visited with one node fewer left, the state kept either way |
| AlgoritmosGrandes.InsertarMonticulo | algoritmos_grandes.cpp:205-208 | linking an unvisited neighbour of a visited node and inserting it, whether the heap took it or was full, keeps the state |
| AlgoritmosGrandes.IniciarMonticulo | algoritmos_grandes.cpp:177-185 | fresh arrays with nothing visited and a `PQ_MAX_GRANDE`-slot heap holding only the origin with its key, in the heap-search state |
| AlgoritmosGrandes.EnlazarMonticulo | algoritmos_grandes.cpp:205-208 | the neighbour's predecessor becomes `actual`, overwriting any earlier one, and the state holds; the heap gains the neighbour with its key when it has room and is unchanged when full |
| AlgoritmosGrandes.IdsPartes | algoritmos_grandes.cpp:190-207 | the ids in the heap after an insertion gain the new id; after an extraction every id stays or is the extracted one |
| AlgoritmosGrandes.ExtraerCompleto | algoritmos_grandes.cpp:190-198 | extracting a visited node keeps the frontier invariant; extracting and visiting an unvisited node other than the destination keeps it with that node open |
| AlgoritmosGrandes.ExpandirBestFirst | algoritmos_grandes.cpp:200-209 | the neighbour loop keeps the heap-search state and the bound of heap entries by unscanned edges; with a heap of at least as many slots as edges, `actual` is closed in the frontier invariant |
| AlgoritmosGrandes.PasoBestFirst | algoritmos_grandes.cpp:190-209 | one iteration keeps the state and the entry bound; the destination is reported only when anchored, and the origin at once; otherwise the origin is visited, and a node is visited or the heap shrinks with the marks unchanged; with enough slots the frontier invariant is kept |
| AlgoritmosGrandes.BucleBestFirst | algoritmos_grandes.cpp:189-210 | the loop ends with a consistent predecessor tree, the destination reported found only when anchored, and always when it is the origin; with a heap of at least as many slots as edges, not found means the visited set holds the origin, is closed under edges and misses the destination |
| AlgoritmosGrandes.BestFirstGrande | algoritmos_grandes.cpp:177-229 | any path returned is a repetition-free walk from origin to destination of at most `n` nodes; origin equal to destination gives `[origen]`; with at most `PQ_MAX_GRANDE` edges, a path is returned exactly when the destination is reachable |
| AlgoritmosGrandes.BuscarBestFirstGrande | algoritmos_grandes.cpp:163-230 | no graph or an endpoint out of range gives `largo == 0` with the buffer untouched; otherwise as `BestFirstGrande`, including a path exactly when the destination is reachable in a graph of at most `PQ_MAX_GRANDE` edges |
| AlgoritmosGrandes.RelajarDijkstra | algoritmos_grandes.cpp:278-288 | an unvisited neighbour whose distance through `actual` is strictly smaller gets that distance and `actual` as predecessor; otherwise nothing changes; the state holds |
| AlgoritmosGrandes.MejorarDijkstra | algoritmos_grandes.cpp:284-286 | the distance and predecessor updates, and the insertion, keep the state |
| AlgoritmosGrandes.ExpandirDijkstra | algoritmos_grandes.cpp:274-289 | the neighbour loop keeps the heap-search state |
| AlgoritmosGrandes.PasoDijkstra | algoritmos_grandes.cpp:264-289 | one iteration keeps the state; the destination is reported only when anchored; otherwise a node is visited or the heap shrinks with the marks unchanged |
| AlgoritmosGrandes.BucleDijkstra | algoritmos_grandes.cpp:263-290 | the loop ends with a consistent predecessor tree, the destination reported found only when anchored, and always when it is the origin |
| AlgoritmosGrandes.DijkstraGrande | algoritmos_grandes.cpp:247-310 | any path returned is a repetition-free walk from origin to destination of at most `n` nodes; origin equal to destination gives `[origen]` |
| AlgoritmosGrandes.BuscarDijkstraGrande | algoritmos_grandes.cpp:233-311 | no graph or an endpoint out of range gives `largo == 0` with the buffer untouched; otherwise as `DijkstraGrande` |
| AlgoritmosGrandes.RelajarAStar | algoritmos_grandes.cpp:363-375 | an unvisited neighbour whose cost through `actual` is strictly smaller gets `actual` as predecessor, that g-score and g-score plus `h` as f-score; otherwise nothing changes; the state holds |
| AlgoritmosGrandes.MejorarAStar | algoritmos_grandes.cpp:370-373 | the predecessor and score updates, and the insertion, keep the state |
| AlgoritmosGrandes.ExpandirAStar | algoritmos_grandes.cpp:359-376 | the neighbour loop keeps the heap-search state |
| AlgoritmosGrandes.PasoAStar | algoritmos_grandes.cpp:349-376 | one iteration keeps the state; the destination is reported only when anchored; otherwise a node is visited or the heap shrinks with the marks unchanged |
| AlgoritmosGrandes.BucleAStar | algoritmos_grandes.cpp:348-377 | the loop ends with a consistent predecessor tree, the destination reported found only when anchored, and always when it is the origin |
| AlgoritmosGrandes.AStarGrande | algoritmos_grandes.cpp:328-398 | any path returned is a repetition-free walk from origin to destination of at most `n` nodes; origin equal to destination gives `[origen]` |
| AlgoritmosGrandes.BuscarAStarGrande | algoritmos_grandes.cpp:314-399 | no graph or an endpoint out of range gives `largo == 0` with the buffer untouched; otherwise as `AStarGrande` |
| DijkstraGrande.RelajarDijkstra | dijkstra_grande.cpp:49-59 | when the distance through `actual` is strictly smaller in floating-point terms it replaces the neighbour's distance and predecessor, visited or not; otherwise nothing changes; the relaxation state holds |
| DijkstraGrande.ExpandirDijkstra | dijkstra_grande.cpp:46-60 | the edge loop keeps the relaxation state |
| DijkstraGrande.PasoDijkstra | dijkstra_grande.cpp:36-60 | one iteration keeps the state; when it does not stop, a node is visited or the heap shrinks with the marks unchanged |
| DijkstraGrande.BucleDijkstra | dijkstra_grande.cpp:35-61 | the loop ends, with the relaxation state |
| DijkstraGrande.DijkstraGrande | dijkstra_grande.cpp:17-82 | any path returned is a repetition-free walk from origin to destination of at most `n` nodes; origin equal to destination gives no path, since the origin never gets a predecessor |
| DijkstraGrande.BuscarDijkstraGrande | dijkstra_grande.cpp:10-83 | no graph gives `largo == 0` with the buffer untouched; otherwise as `DijkstraGrande` over all `MAX_NODES_LARGE` slots |
| DijkstraGrande.RelajarAStar | dijkstra_grande.cpp:128-139 | when the cost through `actual` is strictly smaller it replaces the neighbour's g-score, sets its f-score to that plus `h`, and its predecessor; otherwise nothing changes; the relaxation state holds |
| DijkstraGrande.Puntuar | dijkstra_grande.cpp:135-136 | the two score writes, each changing one entry |
| DijkstraGrande.ExpandirAStar | dijkstra_grande.cpp:125-140 | the edge loop keeps the relaxation state |
| DijkstraGrande.PasoAStar | dijkstra_grande.cpp:115-140 | one iteration keeps the state and leaves the origin visited; the destination is reported only when anchored, and at once when it is the origin; otherwise a node is visited or the heap shrinks |
| DijkstraGrande.BucleAStar | dijkstra_grande.cpp:114-141 | the loop ends with the state, the destination reported found only when anchored, and always when it is the origin |
| DijkstraGrande.AStarGrande | dijkstra_grande.cpp:93-163 | any path returned is a repetition-free walk from origin to destination of at most `n` nodes; origin equal to destination gives `[origen]` |
| DijkstraGrande.BuscarAStarGrande | dijkstra_grande.cpp:86-164 | no graph gives `largo == 0` with the buffer untouched; otherwise as `AStarGrande` over all `MAX_NODES_LARGE` slots |
| Bfs.DescubrirBFS | bfs.cpp:26-30 | the neighbour is marked and gets `actual` as predecessor; nothing else in the arrays changes, the BFS state holds and the loop measure does not grow; in a graph of fewer than `TAM_MAX` nodes the ring appends it and the frontier invariant is kept |
| Bfs.ExpandirBFS | bfs.cpp:24-31 | afterwards every neighbour of `actual` is visited, and the BFS state holds; in a graph of fewer than `TAM_MAX` nodes, `actual` is closed in the frontier invariant |
| Bfs.BucleBFS | bfs.cpp:18-32 | the loop ends, with the BFS state; in a graph of fewer than `TAM_MAX` nodes the destination is visited or the visited set is closed under edges |
| Bfs.IniciarBFS | bfs.cpp:7-15 | fresh arrays and a ring holding only the origin, in the BFS state and the frontier invariant |
| Bfs.BuscarBFS | bfs.cpp:5-49 | the buffer always gets between 1 and `n` distinct nodes: a walk from origin to destination, or `[destino]` alone when the search did not reach it; origin equal to destination gives `[origen]`; an unreachable destination always gives `[destino]`, and in a graph of fewer than `TAM_MAX` nodes a reachable one always gives a walk |
| Dfs.Dfs | dfs.cpp:5-22 | once found nothing changes; otherwise `actual` is visited, marks only grow, the destination counts as found only when visited, and always when it is `actual`; the search state holds; not found keeps the frontier invariant with the nodes still on the call stack open |
| Dfs.ExpandirDfs | dfs.cpp:15-21 | the neighbour loop keeps the search state, only adds marks, and reports found only with the destination visited; not found leaves every neighbour of `actual` visited and the frontier invariant kept |
| Dfs.BuscarDFS | dfs.cpp:24-54 | a path is returned exactly when the destination is reachable; any path returned is a repetition-free walk from origin to destination of at most `n` nodes; origin equal to destination gives `[origen]` |
| Dijkstra.BuscarDijkstra | dijkstra.cpp:5-52 | the buffer always gets between 1 and `n` distinct nodes: a walk from origin to destination, or `[destino]` alone; origin equal to destination gives `[origen]` |
| BestFirstSearch.BuscarBestFirst | best_first_search.cpp:3-38 | the buffer always gets between 1 and `n` distinct nodes: a walk from origin to destination, or `[destino]` alone; origin equal to destination gives `[origen]`; an unreachable destination always gives `[destino]`, and with at most `PQ_MAX_GRANDE` edges a reachable one always gives a walk |
| AEstrella.Intercambiar | a_estrella.cpp:9-13 | the two cells exchange their values; every other cell keeps its value |
| AEstrella.InvertirIntercambiando | a_estrella.cpp:62-63 | the swap loop reverses `camino[0..largo)` in place and leaves the rest of the buffer alone |
| AEstrella.ReconstruirIntercambiando | a_estrella.cpp:55-63 | the buffer holds between 1 and `n` distinct nodes: a walk from the origin to an anchored destination, `[destino]` otherwise |
| AEstrella.BuscarAStar | a_estrella.cpp:16-64 | the buffer always gets between 1 and `n` distinct nodes: a walk from origin to destination, or `[destino]` alone; origin equal to destination gives `[origen]` |
| Convertir.GradoPositivo | convertir.py:16-19 | an id has a positive degree exactly when it is an end of some edge |
| Convertir.CalcularGrado | convertir.py:16-19 | the dictionary holds exactly the ids that end some edge, each with its number of edge ends |
| Convertir.Filtro | convertir.py:23 | a list comprehension with a condition keeps at most as many elements as it reads |
| Convertir.FiltroMiembros | convertir.py:23 | the comprehension keeps exactly the elements that pass its condition |
| Convertir.FiltroUnir | convertir.py:28-31 | the comprehension keeps file order: filtering a concatenation concatenates the filtered parts |
| Convertir.FiltroIgual | convertir.py:22-23 | two conditions that agree on every element keep the same list |
| Convertir.IndiceUltimo | convertir.py:24 | `id_to_index` has exactly the listed ids as keys, each sent to a position holding it, and no later position holds it (a repeated id keeps its last position) |
| Convertir.IndiceBiyectivo | convertir.py:24 | with distinct ids, `id_to_index` sends each position's id back to that position and each key to a position holding it: a bijection between kept ids and `0 .. NODE_COUNT - 1` |
| Convertir.IndiceEnRango | convertir.py:24-25 | every value of `id_to_index` is below `NODE_COUNT` |
| Convertir.Enlazar | convertir.py:44-47 | storing one edge keeps one list per node |
| Convertir.ListasDe | convertir.py:34-47 | when the edge loop gets through, it leaves one list per node |
| Convertir.ListasExito | convertir.py:37-39 | the edge loop gets through exactly when both ends of every kept edge are keys of `id_to_index`; when it fails, the key it names is an end of some edge and not a key |
| Convertir.ListasError | convertir.py:37-39 | after the first failed lookup the later edges change nothing: the `KeyError` of the first prefix that fails is the result |
| Convertir.TotalAgregar | convertir.py:44-47 | appending one pair to one node's list adds exactly one pair to the total |
| Convertir.EnlazarLista | convertir.py:44-47 | storing edge `u - v` adds `(v, w)` to `u`'s list and `(u, w)` to `v`'s, and nothing to any other list |
| Convertir.EnlazarCuenta | convertir.py:44-47 | storing edge `u - v` adds one copy of `(v, w)` to `u`'s list and one of `(u, w)` to `v`'s, and leaves every other count as it was |
| Convertir.EnlazarDestinos | convertir.py:44-47 | storing an edge between two nodes keeps every stored neighbour a node |
| Convertir.EnlazarSimetricas | convertir.py:44-47 | storing an edge keeps the lists symmetric: `(v, w)` appears in `u`'s list as often as `(u, w)` in `v`'s |
| Convertir.TotalVacias | convertir.py:34-35 | the freshly made empty lists hold no pair |
| Convertir.ListasCorrectas | convertir.py:34-47 | after the edge loop every neighbour is a node, the lists are symmetric and they hold exactly twice as many pairs as there are kept edges |
| Convertir.EnlazarProcedentes | convertir.py:44-47 | storing the next edge keeps every pair traced back to one of the edges seen so far |
| Convertir.GuardadaSigue | convertir.py:44-47 | an edge already stored at both its ends stays stored when another edge is appended |
| Convertir.EnlazarGuardadas | convertir.py:44-47 | storing the next edge keeps the earlier ones stored and stores it at both its ends with one weight |
| Convertir.ListasOrigen | convertir.py:37-47 | the edge loop stores exactly its edges: every pair stands for one of them, and each of them sits in the lists of both its ends |
| Convertir.ConstruirListas | convertir.py:34-47 | the imperative edge loop fails exactly when the list-building function fails, naming the same key; on success `adj[u]` and `weight[u]` are that function's pairs taken apart, position by position |
| Convertir.EmparejarAgregar | convertir.py:44-47 | appending `v` to `adj[u]` and `w` to `weight[u]` appends `(v, w)` to `u`'s pairs and leaves the other nodes' pairs as they were |
| Convertir.Insertar | convertir.py:55 | inserting a pair adds exactly that pair and keeps a sorted list sorted |
| Convertir.Antepuesto | convertir.py:55 | putting the head of a sorted list back before the rest with a later pair inserted keeps the list sorted |
| Convertir.Ordenar | convertir.py:55 | `sorted` yields the same pairs (as a multiset), in tuple order: by neighbour, then by weight |
| Convertir.TramoCsrCrece | convertir.py:56-59 | appending to `OFFSET`, `NEIGHBOR` and `WEIGHT` leaves the slices already built as they were |
| Convertir.AgregarOrdenados | convertir.py:56-58 | the inner loop appends exactly the sorted pairs, in order, to `NEIGHBOR` and `WEIGHT` and keeps what was there |
| Convertir.Zip | convertir.py:54-55 | `zip(vecinos, pesos)` pairs the two lists position by position |
| Convertir.PasoCsr | convertir.py:54-59 | one turn of the outer loop keeps the slices of earlier nodes and adds node `u`'s, which ends at the new last offset |
| Convertir.ConstruirCsr | convertir.py:49-59 | `OFFSET` has `NODE_COUNT + 1` entries from 0 to the length of `NEIGHBOR` and `WEIGHT`, and each node's slice holds its pairs sorted |
| Convertir.Conservados | convertir.py:15-31 | the computed valid ids are exactly the ids of degree at least 2, so the two comprehensions keep the nodes and the edges whose ends have degree at least 2 |
| Convertir.ParesDeTramo | convertir.py:56-59 | a slice holding a list reads back as that list |
| Convertir.CabeceraDeListas | convertir.py:49-59 | the arrays are well formed, `NEIGHBOR` holds all the pairs, and each node's slice is sorted and holds exactly that node's pairs (as a multiset) |
| Convertir.OffsetTotal | convertir.py:59 | offsets that grow by each list's length reach the number of pairs in the lists before them |
| Convertir.PesoCorregidoExtremos | convertir.py:38-42 | with the lookup in the kept nodes, the weight of a stored edge is the distance between the two records carrying its end ids |
| Convertir.PesoEscritoFalla | convertir.py:40-41 | as written, with nodes 7, 8, 9 and edges 8-9, 9-8, node 7 is dropped and edge 8 - 9 is weighed between records 7 and 8 instead of 8 and 9 |
| Convertir.MismasListas | convertir.py:54-59 | lists holding the same pairs node by node keep neighbours in range, symmetry, and the two directions of the edge correspondence |
| Convertir.Convertir | convertir.py:15-59 | the whole conversion, with the corrected weight lookup of the finding below: a `KeyError` exactly when a kept edge has an end missing from the nodes (the key is such an id, of degree at least 2); otherwise one node per kept id, twice as many entries as kept edges, a well-formed graph, symmetric sorted slices, every entry a kept edge and every kept edge stored at both ends with the distance of its ends; success covers lines 15-59 only, not the coordinate scaling of lines 61-68 and its `ValueError` and `ZeroDivisionError` |
| Convertir.ClaveFaltante | convertir.py:38-39 | the id a failed lookup names is not a node of the file and has degree at least 2 |
| Convertir.CabeceraCorrecta | convertir.py:49-59 | well-formed arrays whose slices only name nodes make a well-formed CSR graph |

These members model source functions with no contract beyond their bodies, so they have no row above:

- MallaObstaculos.EnLimites models `en_limites` (malla_obstaculos.cpp:205-207).
- MallaObstaculos.MallaConObstaculos.GetTotalNodes models `get_total_nodes` (malla_obstaculos.h:49).
- GrafoGrande.GrafoGrande.GetOffsetInicio, GetOffsetFin, GetVecino, GetPeso, GetPosX, GetPosY and GetNumNodosReales model the inline getters (grafo_grande.h:31-37). Their joint meaning is the lemma GrafoGrande.GrafoGrande.Getters.
- Convertir.Validos models `nodos_validos_ids` (convertir.py:22).
- Convertir.NodosFiltrados models `nodos_filtrados` (convertir.py:23).
- Convertir.AristasFiltradas models `edges_filtradas` (convertir.py:28-31).
- Convertir.IndiceDe models `id_to_index` (convertir.py:24). Its properties are the lemmas Convertir.IndiceUltimo, Convertir.IndiceBiyectivo and Convertir.IndiceEnRango.
- Convertir.PesoCorregido and Convertir.PesoEscrito model the weight lookup of convertir.py:40-42, corrected and as written. They are the two halves of the row under "## Findings", with the lemmas Convertir.PesoCorregidoExtremos and Convertir.PesoEscritoFalla.

## Left out

- AlgoritmosGrandes.BFSGrande: hop-minimality of the path is not proved; the contract states a valid repetition-free walk. Completeness (a path exactly when the destination is reachable) is proved only for graphs of fewer than `TAM_MAX_GRANDE` nodes: with more, `ColaGrande.encolar` can drop a node that was already marked visited, and the search can then miss a reachable destination.
- AlgoritmosGrandes.BuscarBFSGrande: the same two limits as `BFSGrande`.
- Bfs.BuscarBFS: hop-minimality is not proved. A reachable destination is proved to give a walk only for graphs of fewer than `TAM_MAX` nodes, because the `ColaInt` ring drops values when full.
- AlgoritmosGrandes.DFSGrande: completeness is proved only for graphs of at most `TAM_MAX_GRANDE` edges. With more, `StackGrande.apilar` can drop a pending neighbour when full, and the search can then miss a reachable destination.
- AlgoritmosGrandes.BuscarDFSGrande: the same limit as `DFSGrande`.
- AlgoritmosGrandes.BestFirstGrande: completeness is proved only for graphs of at most `PQ_MAX_GRANDE` edges. With more, `ColaPrioridadGrande.insertar` can drop a pending neighbour when full, and the search can then miss a reachable destination.
- AlgoritmosGrandes.BuscarBestFirstGrande: the same limit as `BestFirstGrande`.
- BestFirstSearch.BuscarBestFirst: a reachable destination is proved to give a walk only for graphs of at most `PQ_MAX_GRANDE` edges, for the same reason.
- AlgoritmosGrandes.DijkstraGrande: neither completeness nor minimality of the path cost is proved. A full heap silently drops insertions, a distance that reaches the sentinel `1e9f` counts as unreached, and float costs are integers here. The contract states a valid repetition-free walk and the predecessor tree.
- AlgoritmosGrandes.BuscarDijkstraGrande: neither completeness nor minimality is proved, for the same reasons as `DijkstraGrande`.
- AlgoritmosGrandes.AStarGrande: neither completeness nor optimality is proved. Besides the dropped insertions and the `1e9f` sentinel, optimality depends on the heuristic being admissible, which nothing in the sources establishes.
- AlgoritmosGrandes.BuscarAStarGrande: neither completeness nor optimality is proved, for the same reasons as `AStarGrande`.
- DijkstraGrande.DijkstraGrande: neither completeness nor minimality of the path cost is proved, because a full heap drops insertions. It also requires non-negative weights, which the source does not check: with a negative weight a visited node can be relaxed again, the predecessor links can close a cycle, and the reconstruction loop would not end. The model has no termination argument for that case.
- DijkstraGrande.BuscarDijkstraGrande: the same limits as `DijkstraGrande.DijkstraGrande`, including the non-negative weights demanded through `Admisible`.
- DijkstraGrande.AStarGrande: neither completeness nor optimality is proved, for the reasons given for `AlgoritmosGrandes.AStarGrande`. It also requires non-negative weights, which the source does not check, for the termination reason given for `DijkstraGrande.DijkstraGrande`.
- DijkstraGrande.BuscarAStarGrande: the same limits as `DijkstraGrande.AStarGrande`, including the non-negative weights demanded through `Admisible`.
- DijkstraGrande.Admisible: it includes non-negative weights over all `MAX_NODES_LARGE` slots. The source demands only a built graph; this conjunct is the model's termination argument for reconstruction, as above.
- Dijkstra.BuscarDijkstra: neither completeness nor minimality of the path cost is proved, because of the `1e9` sentinel and the fixed-size heap. It also requires non-negative weights, which the source does not check: `dijkstra.cpp` relaxes visited nodes too, so a negative weight can close a predecessor cycle and the reconstruction loop would not end.
- AEstrella.BuscarAStar: neither completeness nor optimality is proved, for the reasons given for `Dijkstra.BuscarDijkstra` and the unproved admissibility of the heuristic. It also requires non-negative weights, which the source does not check, for the same termination reason.
- Convertir.Convertir: it uses the corrected weight lookup `PesoCorregido`, the distance between the records of the edge's own ends. The as-written lookup of convertir.py:40-41 is `PesoEscrito`, and `PesoEscritoFalla` shows where it differs (see "## Findings"). The weights the model promises are therefore not the ones the script as written produces when nodes were dropped. Its success result also does not mean the script succeeds: the scaling of convertir.py:61-68 can still raise `ValueError` (no node kept) or `ZeroDivisionError` (all kept nodes share a `lon` or a `lat`), and neither is modelled.
- The heuristics `heuristica` (a_estrella.cpp:3-7) and `heuristica_grande` (grafo_grande.cpp:302-308) and the helper `distancia_euclidiana` (grafo_grande.cpp:310-316) compute floating-point Euclidean distances. They are the parameter `h` (or `dist` in `Convertir`).
- Floating-point arithmetic: weights, distances and priorities are integers. `std::numeric_limits<float>::infinity()` is a separate "unreached" state, not a number.
- ColaPrioridad, used by the small-graph Dijkstra, Best-First and A*, is not defined in any of the modelled files. Those searches use `ColaPrioridadGrande` in its place.
- grafo_arequipa.h (the compiled-in small graph) is not part of this model. Its `OFFSET`, `NEIGHBOR`, `WEIGHT` and `NODE_COUNT` are a graph parameter that satisfies the CSR invariants.
- Caller buffers: the path buffer must hold at least as many slots as there are nodes (a precondition). Overflow of a smaller buffer is not modelled.
- Random generation:
  - `generar_grafo_grande` (grafo_grande.cpp:74-156);
  - the random obstacles;
  - river and lake drawing;
  - the random parts of building placement.

  Their random outcomes come in as parameters (the draws of buildings, the cells to paint).
- Edge weights of the mesh graph (grafo_grande.cpp:265-266, a square root times a `rand()` factor) are the parameter `peso`.
- Mesh geometry in world units (`CELL_SIZE`, `coordenadas_mundo`): positions are the grid coordinates `x`, `y`.
- generar_grafo_desde_malla (malla_obstaculos.cpp:284-305) and the image and statistics export functions of the mesh are left out: they are console and file output.
- The console messages and the `aristas_generadas` progress counter of the mesh graph builder are left out, because they are output only.
- GrafoGrande.GrafoGrande.Inicializar: the `bad_alloc` path is left out, because Dafny allocation does not fail, so initialisation always succeeds.
- delete[] and the freeing of the global graph are left out, because Dafny has no explicit deallocation.
- obtener_memoria_actual, analizar_resultados and guardar_resultados_csv (algoritmos_grandes.cpp:401-471) are left out: they use operating-system memory queries, floating-point statistics and file output.
- convertir.py: JSON reading (lines 9-13) and header writing (lines 70-94) are left out, because they are file I/O and float formatting. `math.hypot` is the parameter `dist`.
- convertir.py: coordinate scaling (lines 61-68) is left out, because node coordinates are not modelled and the scaling is float arithmetic. Its two error paths are left out with it:
  - `min` over the kept nodes (line 62) raises `ValueError` when no node is kept, for example with no nodes and no edges;
  - the divisions of lines 67-68 raise `ZeroDivisionError` when every kept node has the same `lon`, or the same `lat`, for example a single node whose only edge is a self-loop (degree 2, so it is kept).
- Python `KeyError` is an error result naming the missing key, not an exception.

## Findings

| source | as written | input that shows it | evidently intended | confidence | as-written member | corrected member |
|---|---|---|---|---|---|---|
| convertir.py:40-41 | the coordinates of an edge's ends are read as `nodes[id_to_index[...]]`, indexing the unfiltered node list with a position in the filtered one | nodes with ids 7, 8, 9 and edges 8-9 and 9-8: node 7 has degree 0 and is dropped, so ids 8 and 9 get indices 0 and 1, and the weight of edge 8 - 9 is the distance between the records of nodes 7 and 8 | read the coordinates from `nodos_filtrados[...]`, the records of the edge's own ends | not executed | Convertir.PesoEscritoFalla | Convertir.PesoCorregidoExtremos (Convertir.Convertir uses the corrected weight) |
