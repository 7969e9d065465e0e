/** The diagram cells that exporter/exporter.go emits: one box per host in a
    grid, a box with a key icon per SSH key shared by several occurrences,
    and a stack of boxes for hosts known only by MAC and IPv6. The XML
    envelope is not modelled; cell ids come from a counter. */
module Exporter {
  import opened Model
  import opened Text
  import opened Keyed
  import opened Layout
  import opened Label
  import opened Grouping

  /** The two root cells have fixed names; every other id is fresh. */
  datatype CellId = Named(name: string) | Fresh(n: nat)

  /** The numbers fmt.Sprint prints into the cell's geometry: integers for
      the boxes, float32 values for the key icon. */
  datatype Geometry = Geometry(x: real, y: real, width: real, height: real)

  datatype Cell = Cell(
    id: CellId,
    value: string,
    parent: Option<CellId>,
    style: string,
    vertex: string,
    geometry: Option<Geometry>)

  const Layer := Named("1")
  const BoxStyle := "rounded=1;whiteSpace=wrap;html=1;arcSize=2"
  const KeyOffsetX: real := 0.0
  const KeyOffsetY: real := 23.75
  const KeyWidth: real := 50.0
  const KeyHeight: real := 22.5

  function RootCells(): seq<Cell>
  {
    [Cell(Named("0"), "", None, "", "", None), Cell(Layer, "", Some(Named("0")), "", "", None)]
  }

  function Placed(r: Rect): Geometry
  {
    Geometry(r.x as real, r.y as real, r.width as real, r.height as real)
  }

  /** A vertex on the diagram layer. */
  function Box(id: CellId, value: string, style: string, r: Rect): Cell
  {
    Cell(id, value, Some(Layer), style, "1", Some(Placed(r)))
  }

  /** The box of host i of the scan, showing the given label. */
  function HostCell(hosts: seq<Host>, i: nat, id: CellId, shown: string): Cell
    requires i < |hosts|
  {
    Box(id, shown, BoxStyle, HostRect(hosts, i))
  }

  /** The label of every host, in host order. */
  function HostLabels(hosts: seq<Host>): (ls: seq<string>)
    ensures |ls| == |hosts|
  {
    seq(|hosts|, i requires 0 <= i < |hosts| => HostLabel(hosts[i]))
  }

  function UnidentifiedValue(u: UnidentifiedHost): string
  {
    "Unidentified host:<br><br>MAC: " + u.mac + "<br>IPv6: " + u.ipv6
  }

  /** The box of the k-th unidentified host. */
  function UnidentifiedCell(u: UnidentifiedHost, k: nat, id: CellId): Cell
  {
    Box(id, UnidentifiedValue(u), BoxStyle, UnidentifiedRect(k))
  }

  function FingerprintValue(key: HostKey): string
  {
    "<u>Identical SSH Key:</u><br>Type: <strong>" + key.keyType +
    "</strong><br>Fingerprint: <strong>" + key.fingerprint + "</strong>"
  }

  function FingerprintStyle(): string
  {
    BoxStyle + ";align=left;spacingLeft=" + IntToString(FingerprintInsetX)
  }

  /** The box of the j-th fingerprint group that is shown. */
  function FingerprintCell(key: HostKey, j: nat, id: CellId): Cell
  {
    Box(id, FingerprintValue(key), FingerprintStyle(), FingerprintRect(j))
  }

  /** makeKeyCell: a key icon of the given colour, placed relative to its parent. */
  function MakeKeyCell(id: CellId, parentId: CellId, color: string, x: real, y: real, styleArgs: string): Cell
  {
    Cell(id, "", Some(parentId), "shape=mxgraph.cisco19.key;fillColor=" + color + ";strokeColor=none;" + styleArgs, "1",
      Some(Geometry(x, y, KeyWidth, KeyHeight)))
  }

  /** The key icon of the j-th group shown, a child of that group's box. */
  function KeyCell(firstId: nat, j: nat, color: string): Cell
  {
    MakeKeyCell(Fresh(firstId + 2 * j + 1), Fresh(firstId + 2 * j), color, KeyOffsetX, KeyOffsetY, "rotation=90;")
  }

  /** The key icon, placed relative to its box, lies inside the box and
      within the box's left inset, where the text does not go. */
  lemma KeyIconInsideInset(firstId: nat, j: nat, color: string, key: HostKey)
    ensures var g := KeyCell(firstId, j, color).geometry.value;
      var box := FingerprintCell(key, j, Fresh(firstId + 2 * j)).geometry.value;
      KeyCell(firstId, j, color).parent == Some(FingerprintCell(key, j, Fresh(firstId + 2 * j)).id) &&
      0.0 <= g.x && g.x + g.width <= FingerprintInsetX as real && FingerprintInsetX as real <= box.width &&
      0.0 <= g.y && g.y + g.height <= box.height
  {
  }

  /** The interiors of two drawn geometries intersect. */
  predicate GeometryOverlap(a: Geometry, b: Geometry)
  {
    a.x < b.x + b.width && b.x < a.x + a.width &&
    a.y < b.y + b.height && b.y < a.y + a.height
  }

  /** Both cells are drawn and do not overlap. */
  predicate Apart(c: Cell, d: Cell)
  {
    c.geometry.Some? && d.geometry.Some? && !GeometryOverlap(c.geometry.value, d.geometry.value)
  }

  lemma PlacedOverlap(a: Rect, b: Rect)
    ensures GeometryOverlap(Placed(a), Placed(b)) <==> Overlap(a, b)
  {
  }

  /** No two host boxes of the diagram overlap, and no box of one of the
      three families meets a box of another. */
  lemma DrawnBoxesDoNotOverlap(hosts: seq<Host>, i: nat, i': nat, a: CellId, b: CellId, v: string, v': string,
                               u: UnidentifiedHost, k: nat, key: HostKey, j: nat, c: CellId, d: CellId)
    requires i < |hosts| && i' < |hosts|
    ensures i != i' ==> Apart(HostCell(hosts, i, a, v), HostCell(hosts, i', b, v'))
    ensures Apart(HostCell(hosts, i, a, v), UnidentifiedCell(u, k, c))
    ensures Apart(HostCell(hosts, i, a, v), FingerprintCell(key, j, d))
    ensures Apart(FingerprintCell(key, j, d), UnidentifiedCell(u, k, c))
  {
    PlacedOverlap(HostRect(hosts, i), HostRect(hosts, i'));
    PlacedOverlap(HostRect(hosts, i), UnidentifiedRect(k));
    PlacedOverlap(HostRect(hosts, i), FingerprintRect(j));
    PlacedOverlap(FingerprintRect(j), UnidentifiedRect(k));
    if i != i' {
      HostsDoNotOverlap(hosts, i, i');
    }
    FamiliesDoNotOverlap(hosts, i, j, k);
  }

  /** Two unidentified hosts, or two fingerprint boxes, never overlap. */
  lemma DrawnStacksDoNotOverlap(u: UnidentifiedHost, k: nat, u': UnidentifiedHost, k': nat, c: CellId, c': CellId,
                                key: HostKey, j: nat, key': HostKey, j': nat, d: CellId, d': CellId)
    ensures k != k' ==> Apart(UnidentifiedCell(u, k, c), UnidentifiedCell(u', k', c'))
    ensures j != j' ==> Apart(FingerprintCell(key, j, d), FingerprintCell(key', j', d'))
  {
    PlacedOverlap(UnidentifiedRect(k), UnidentifiedRect(k'));
    PlacedOverlap(FingerprintRect(j), FingerprintRect(j'));
    if k != k' {
      UnidentifiedDoNotOverlap(k, k');
    }
    if j != j' {
      FingerprintBoxesDoNotOverlap(j, j');
    }
  }

  /** The boxes of the first n hosts, with consecutive fresh ids and the given labels. */
  function HostCells(hosts: seq<Host>, labels: seq<string>, firstId: nat, n: nat): (cs: seq<Cell>)
    requires n <= |hosts| == |labels|
    ensures |cs| == n
  {
    if n == 0 then [] else HostCells(hosts, labels, firstId, n - 1) + [HostCell(hosts, n - 1, Fresh(firstId + n - 1), labels[n - 1])]
  }

  /** The boxes of the first n unidentified hosts. */
  function UnidentifiedCells(hosts: seq<UnidentifiedHost>, firstId: nat, n: nat): (cs: seq<Cell>)
    requires n <= |hosts|
    ensures |cs| == n
  {
    if n == 0 then [] else UnidentifiedCells(hosts, firstId, n - 1) + [UnidentifiedCell(hosts[n - 1], n - 1, Fresh(firstId + n - 1))]
  }

  /** Cell i of the list is the box of host i, with id firstId + i. */
  lemma {:induction false} HostCellsAt(hosts: seq<Host>, labels: seq<string>, firstId: nat, n: nat, i: nat)
    requires i < n <= |hosts| == |labels|
    ensures HostCells(hosts, labels, firstId, n)[i] == HostCell(hosts, i, Fresh(firstId + i), labels[i])
  {
    if i < n - 1 {
      HostCellsAt(hosts, labels, firstId, n - 1, i);
    }
  }

  /** Cell k of the list is the box of unidentified host k, with id firstId + k. */
  lemma {:induction false} UnidentifiedCellsAt(hosts: seq<UnidentifiedHost>, firstId: nat, n: nat, k: nat)
    requires k < n <= |hosts|
    ensures UnidentifiedCells(hosts, firstId, n)[k] == UnidentifiedCell(hosts[k], k, Fresh(firstId + k))
  {
    if k < n - 1 {
      UnidentifiedCellsAt(hosts, firstId, n - 1, k);
    }
  }

  /** Where host i + 1 goes once host i is placed. */
  lemma NextHostPosition(hosts: seq<Host>, i: nat)
    requires i < |hosts|
    ensures (i + 1) % Rows == 0 ==>
      HostX(i + 1) == HostX(i) + HostWidth + Padding && ColumnOffset(hosts, ColumnStart(i + 1), i + 1) == 0
    ensures (i + 1) % Rows != 0 ==>
      HostX(i + 1) == HostX(i) &&
      ColumnOffset(hosts, ColumnStart(i + 1), i + 1) == ColumnOffset(hosts, ColumnStart(i), i) + HostHeight(hosts[i]) + Padding
  {
    if (i + 1) % Rows == 0 {
      assert ColumnStart(i + 1) == i + 1;
    } else {
      assert ColumnStart(i + 1) == ColumnStart(i);
    }
  }

  /** One turn of addHosts' loop: the box of host i extends the cells drawn so far. */
  lemma HostCellsStep(cells: seq<Cell>, hosts: seq<Host>, labels: seq<string>, firstId: nat, i: nat, r: seq<Cell>, cell: Cell)
    requires i < |hosts| == |labels|
    requires r == cells + HostCells(hosts, labels, firstId, i)
    requires cell == HostCell(hosts, i, Fresh(firstId + i), labels[i])
    ensures r + [cell] == cells + HostCells(hosts, labels, firstId, i + 1)
  {
    assert HostCells(hosts, labels, firstId, i + 1) == HostCells(hosts, labels, firstId, i) + [cell];
  }

  /** The body of addHosts' loop for host i: its label, in a box at the
      current position. */
  method MakeHostCell(hosts: seq<Host>, ghost labels: seq<string>, i: nat, id: CellId, currentX: int, currentY: int)
    returns (cell: Cell)
    requires i < |hosts| && labels == HostLabels(hosts)
    requires currentX == HostX(i) && currentY == ColumnOffset(hosts, ColumnStart(i), i)
    ensures cell == HostCell(hosts, i, id, labels[i])
  {
    var host := hosts[i];
    var value := HostValue(host);
    var box := Rect(currentX, currentY, HostWidth, HostHeight(host));
    assert box == HostRect(hosts, i);
    cell := Box(id, value, BoxStyle, box);
  }

  /** addHosts: one box per host, in host order, after the given cells;
      columns of eight, each host below the previous one of its column. */
  method AddHosts(cells: seq<Cell>, scan: Scan, firstId: nat) returns (r: seq<Cell>, nextId: nat)
    ensures r == cells + HostCells(scan.hosts, HostLabels(scan.hosts), firstId, |scan.hosts|)
    ensures nextId == firstId + |scan.hosts|
  {
    var hosts := scan.hosts;
    ghost var labels := HostLabels(hosts);
    r, nextId := cells, firstId;
    var currentX, currentY := 0, 0;
    for i := 0 to |hosts|
      invariant r == cells + HostCells(hosts, labels, firstId, i)
      invariant nextId == firstId + i
      invariant currentX == HostX(i)
      invariant currentY == ColumnOffset(hosts, ColumnStart(i), i)
    {
      var cell := MakeHostCell(hosts, labels, i, Fresh(firstId + i), currentX, currentY);
      HostCellsStep(cells, hosts, labels, firstId, i, r, cell);
      r := r + [cell];
      nextId := nextId + 1;
      currentX, currentY := AdvanceHostPosition(hosts, i, currentX, currentY);
    }
  }

  /** The end of addHosts' loop for host i: one step down the column, or
      the top of the next column after every eighth host. */
  method AdvanceHostPosition(hosts: seq<Host>, i: nat, currentX: int, currentY: int) returns (x: int, y: int)
    requires i < |hosts|
    requires currentX == HostX(i) && currentY == ColumnOffset(hosts, ColumnStart(i), i)
    ensures x == HostX(i + 1) && y == ColumnOffset(hosts, ColumnStart(i + 1), i + 1)
  {
    x, y := currentX, currentY + HostHeight(hosts[i]) + Padding;
    NextHostPosition(hosts, i);
    if (i + 1) % Rows == 0 {
      x := x + HostWidth + Padding;
      y := 0;
    }
  }

  /** addUnidentifiedHosts: one fixed-size box per unidentified host, in
      order, stacked downwards at x = -700. */
  method AddUnidentifiedHosts(cells: seq<Cell>, scan: Scan, firstId: nat) returns (r: seq<Cell>, nextId: nat)
    ensures r == cells + UnidentifiedCells(scan.unidentifiedHosts, firstId, |scan.unidentifiedHosts|)
    ensures nextId == firstId + |scan.unidentifiedHosts|
  {
    var hosts := scan.unidentifiedHosts;
    r, nextId := cells, firstId;
    var currentX, currentY := UnidentifiedX, UnidentifiedY;
    for k := 0 to |hosts|
      invariant r == cells + UnidentifiedCells(hosts, firstId, k)
      invariant nextId == firstId + k
      invariant currentX == UnidentifiedX && currentY == UnidentifiedRect(k).y
    {
      var host := hosts[k];
      var box := Rect(currentX, currentY, UnidentifiedWidth, UnidentifiedHeight);
      assert box == UnidentifiedRect(k);
      var cell := Box(Fresh(nextId), UnidentifiedValue(host), BoxStyle, box);
      assert cell == UnidentifiedCell(host, k, Fresh(firstId + k));
      r := r + [cell];
      nextId := nextId + 1;
      UnidentifiedRectNext(k);
      currentY := currentY + UnidentifiedHeight + Padding;
    }
  }

  /** The cells of the fingerprint boxes shown: for the j-th key shown, its
      box and then its key icon in colour palette[j]. */
  function FingerprintCells(shown: seq<HostKey>, palette: seq<string>, firstId: nat): (cs: seq<Cell>)
    requires |shown| <= |palette|
    ensures |cs| == 2 * |shown|
  {
    if shown == [] then []
    else
      var j := |shown| - 1;
      FingerprintCells(shown[..j], palette, firstId) +
        [FingerprintCell(shown[j], j, Fresh(firstId + 2 * j)), KeyCell(firstId, j, palette[j])]
  }

  /** Cells 2j and 2j + 1 are the box of the j-th key shown and its key icon. */
  lemma {:induction false} FingerprintCellsAt(shown: seq<HostKey>, palette: seq<string>, firstId: nat, j: nat)
    requires j < |shown| <= |palette|
    ensures FingerprintCells(shown, palette, firstId)[2 * j] == FingerprintCell(shown[j], j, Fresh(firstId + 2 * j))
    ensures FingerprintCells(shown, palette, firstId)[2 * j + 1] == KeyCell(firstId, j, palette[j])
    decreases |shown|
  {
    var n := |shown| - 1;
    if j < n {
      FingerprintCellsAt(shown[..n], palette, firstId, j);
      assert shown[..n][j] == shown[j];
    }
  }

  lemma FingerprintCellsSnoc(shown: seq<HostKey>, key: HostKey, palette: seq<string>, firstId: nat, box: Cell, icon: Cell)
    requires |shown| < |palette|
    requires box == FingerprintCell(key, |shown|, Fresh(firstId + 2 * |shown|))
    requires icon == KeyCell(firstId, |shown|, palette[|shown|])
    ensures FingerprintCells(shown + [key], palette, firstId) == FingerprintCells(shown, palette, firstId) + [box, icon]
  {
    assert (shown + [key])[..|shown|] == shown;
  }

  lemma AppendTwo<T>(a: seq<T>, b: seq<T>, x: T, y: T)
    ensures (a + b) + [x] + [y] == a + (b + [x, y])
  {
  }

  /** One turn of the drawing loop on a key whose group holds more than
      one host: its box and icon extend the cells drawn so far. */
  lemma DrawnStep(cells: seq<Cell>, order: seq<HostKey>, groups: map<HostKey, seq<Host>>, palette: seq<string>,
                  firstId: nat, p: nat, index: nat, r: seq<Cell>, key: HostKey, box: Cell, icon: Cell)
    requires p < |order| <= |palette|
    requires index == |Emitted(order[..p], groups)|
    requires r == cells + FingerprintCells(Emitted(order[..p], groups), palette, firstId)
    requires Shown(groups, order[p])
    requires key == order[p].(color := palette[index])
    requires box == FingerprintCell(key, index, Fresh(firstId + 2 * index))
    requires icon == KeyCell(firstId, index, key.color)
    ensures index + 1 == |Emitted(order[..p + 1], groups)|
    ensures r + [box] + [icon] == cells + FingerprintCells(Emitted(order[..p + 1], groups), palette, firstId)
  {
    var shown := Emitted(order[..p], groups);
    EmittedStep(order, groups, p);
    FingerprintCellIgnoresColor(order[p], palette[index], index, Fresh(firstId + 2 * index));
    FingerprintCellsSnoc(shown, order[p], palette, firstId, box, icon);
    AppendTwo(cells, FingerprintCells(shown, palette, firstId), box, icon);
  }

  /** One turn of the drawing loop on a key whose group holds one host:
      nothing is drawn. */
  lemma SkippedStep(order: seq<HostKey>, groups: map<HostKey, seq<Host>>, palette: seq<string>, firstId: nat, p: nat)
    requires p < |order| <= |palette|
    requires !Shown(groups, order[p])
    ensures Emitted(order[..p + 1], groups) == Emitted(order[..p], groups)
    ensures FingerprintCells(Emitted(order[..p + 1], groups), palette, firstId) ==
      FingerprintCells(Emitted(order[..p], groups), palette, firstId)
  {
    EmittedStep(order, groups, p);
  }

  /** The colour a key carries does not show in its box. */
  lemma FingerprintCellIgnoresColor(key: HostKey, color: string, j: nat, id: CellId)
    ensures FingerprintCell(key.(color := color), j, id) == FingerprintCell(key, j, id)
  {
  }

  /** The two cells drawn for the j-th key shown, at the current position. */
  method MakeFingerprintCells(key: HostKey, j: nat, firstId: nat, currentX: int, currentY: int)
    returns (box: Cell, icon: Cell)
    requires currentX == FingerprintX && currentY == FingerprintRect(j).y
    ensures box == FingerprintCell(key, j, Fresh(firstId + 2 * j))
    ensures icon == KeyCell(firstId, j, key.color)
  {
    var id := Fresh(firstId + 2 * j);
    box := Box(id, FingerprintValue(key), FingerprintStyle(),
      Rect(currentX, currentY, FingerprintWidth, FingerprintBaseHeight));
    icon := MakeKeyCell(Fresh(firstId + 2 * j + 1), id, key.color, KeyOffsetX, KeyOffsetY, "rotation=90;");
  }

  /** The cells Export draws before the fingerprint boxes: the two root
      cells and one box per host, with ids numbered from 0. */
  function HostPart(scan: Scan): seq<Cell>
  {
    RootCells() + HostCells(scan.hosts, HostLabels(scan.hosts), 0, |scan.hosts|)
  }

  /** The cells Export draws after the host boxes when the keys in `shown`
      get fingerprint boxes: those boxes with their key icons, then the
      unidentified hosts, with ids continuing after the hosts. */
  function KeyPart(scan: Scan, shown: seq<HostKey>, palette: seq<string>): seq<Cell>
    requires |shown| <= |palette|
  {
    FingerprintCells(shown, palette, |scan.hosts|) +
    UnidentifiedCells(scan.unidentifiedHosts, |scan.hosts| + 2 * |shown|, |scan.unidentifiedHosts|)
  }

  /** Everything Export draws for a scan. */
  function Diagram(scan: Scan, shown: seq<HostKey>, palette: seq<string>): seq<Cell>
    requires |shown| <= |palette|
  {
    HostPart(scan) + KeyPart(scan, shown, palette)
  }

  /** The cells drawn after the host boxes, assembled from the fingerprint
      boxes and the unidentified hosts. */
  lemma KeyParts(scan: Scan, shown: seq<HostKey>, palette: seq<string>,
                 hostsEnd: nat, keysEnd: nat, withHosts: seq<Cell>, withKeys: seq<Cell>, cells: seq<Cell>)
    requires |shown| <= |palette|
    requires hostsEnd == |scan.hosts| && keysEnd == hostsEnd + 2 * |shown|
    requires withKeys == withHosts + FingerprintCells(shown, palette, hostsEnd)
    requires cells == withKeys + UnidentifiedCells(scan.unidentifiedHosts, keysEnd, |scan.unidentifiedHosts|)
    ensures cells == withHosts + KeyPart(scan, shown, palette)
  {
  }

  /** A cell drawn directly on the diagram layer: every box. Key icons hang
      off their fingerprint box and the root cells off nothing or the root. */
  predicate OnLayer(c: Cell)
  {
    c.parent == Some(Layer)
  }

  /** Where position p of a diagram with n hosts and m fingerprint boxes falls. */
  datatype Slot = RootSlot | HostSlot(i: nat) | KeySlot(j: nat) | IconSlot(j: nat) | UnidentifiedSlot(k: nat)

  function SlotOf(n: nat, m: nat, p: nat): Slot
  {
    if p < 2 then RootSlot
    else if p < 2 + n then HostSlot(p - 2)
    else if p < 2 + n + 2 * m then
      (if (p - 2 - n) % 2 == 0 then KeySlot((p - 2 - n) / 2) else IconSlot((p - 2 - n) / 2))
    else UnidentifiedSlot(p - 2 - n - 2 * m)
  }

  predicate IsBoxSlot(scan: Scan, shown: seq<HostKey>, s: Slot)
  {
    (s.HostSlot? && s.i < |scan.hosts|) ||
    (s.KeySlot? && s.j < |shown|) ||
    (s.UnidentifiedSlot? && s.k < |scan.unidentifiedHosts|)
  }

  /** The box Export draws at a slot, with the id it numbers it with. */
  function BoxAt(scan: Scan, labels: seq<string>, shown: seq<HostKey>, s: Slot): Cell
    requires |labels| == |scan.hosts| && IsBoxSlot(scan, shown, s)
  {
    if s.HostSlot? then HostCell(scan.hosts, s.i, Fresh(s.i), labels[s.i])
    else if s.KeySlot? then FingerprintCell(shown[s.j], s.j, Fresh(|scan.hosts| + 2 * s.j))
    else UnidentifiedCell(scan.unidentifiedHosts[s.k], s.k, Fresh(|scan.hosts| + 2 * |shown| + s.k))
  }

  /** The diagram with the given host labels. */
  function CellsWith(scan: Scan, labels: seq<string>, shown: seq<HostKey>, palette: seq<string>): seq<Cell>
    requires |labels| == |scan.hosts| && |shown| <= |palette|
  {
    (RootCells() + HostCells(scan.hosts, labels, 0, |scan.hosts|)) + KeyPart(scan, shown, palette)
  }

  lemma DiagramWithLabels(scan: Scan, shown: seq<HostKey>, palette: seq<string>)
    requires |shown| <= |palette|
    ensures Diagram(scan, shown, palette) == CellsWith(scan, HostLabels(scan.hosts), shown, palette)
  {
  }

  lemma ConcatAt<T>(a: seq<T>, b: seq<T>, i: nat, p: nat)
    requires i < |b| && p == |a| + i
    ensures p < |a + b| && (a + b)[p] == b[i]
  {
  }

  lemma KeyPartKeyAt(scan: Scan, shown: seq<HostKey>, palette: seq<string>, j: nat)
    requires |shown| <= |palette| && j < 2 * |shown|
    ensures j < |KeyPart(scan, shown, palette)|
    ensures KeyPart(scan, shown, palette)[j] == FingerprintCells(shown, palette, |scan.hosts|)[j]
  {
  }

  lemma KeyPartUnidentifiedAt(scan: Scan, shown: seq<HostKey>, palette: seq<string>, k: nat)
    requires |shown| <= |palette| && k < |scan.unidentifiedHosts|
    ensures 2 * |shown| + k < |KeyPart(scan, shown, palette)|
    ensures KeyPart(scan, shown, palette)[2 * |shown| + k] ==
      UnidentifiedCells(scan.unidentifiedHosts, |scan.hosts| + 2 * |shown|, |scan.unidentifiedHosts|)[k]
  {
    var fc := FingerprintCells(shown, palette, |scan.hosts|);
    var uc := UnidentifiedCells(scan.unidentifiedHosts, |scan.hosts| + 2 * |shown|, |scan.unidentifiedHosts|);
    ConcatAt(fc, uc, k, 2 * |shown| + k);
  }

  lemma CellsHostAt(scan: Scan, labels: seq<string>, shown: seq<HostKey>, palette: seq<string>, i: nat, p: nat)
    requires |labels| == |scan.hosts| && |shown| <= |palette| && i < |scan.hosts| && p == 2 + i
    ensures p < |CellsWith(scan, labels, shown, palette)|
    ensures CellsWith(scan, labels, shown, palette)[p] == HostCell(scan.hosts, i, Fresh(i), labels[i])
  {
    var hc := HostCells(scan.hosts, labels, 0, |scan.hosts|);
    HostCellsAt(scan.hosts, labels, 0, |scan.hosts|, i);
    ConcatAt(RootCells(), hc, i, p);
  }

  lemma CellsKeyAt(scan: Scan, labels: seq<string>, shown: seq<HostKey>, palette: seq<string>, j: nat, p: nat)
    requires |labels| == |scan.hosts| && |shown| <= |palette| && j < |shown| && p == 2 + |scan.hosts| + 2 * j
    ensures p + 1 < |CellsWith(scan, labels, shown, palette)|
    ensures CellsWith(scan, labels, shown, palette)[p] == FingerprintCell(shown[j], j, Fresh(|scan.hosts| + 2 * j))
    ensures !OnLayer(CellsWith(scan, labels, shown, palette)[p + 1])
  {
    var hp := RootCells() + HostCells(scan.hosts, labels, 0, |scan.hosts|);
    var kp := KeyPart(scan, shown, palette);
    FingerprintCellsAt(shown, palette, |scan.hosts|, j);
    KeyPartKeyAt(scan, shown, palette, 2 * j);
    KeyPartKeyAt(scan, shown, palette, 2 * j + 1);
    ConcatAt(hp, kp, 2 * j, p);
    ConcatAt(hp, kp, 2 * j + 1, p + 1);
  }

  lemma CellsUnidentifiedAt(scan: Scan, labels: seq<string>, shown: seq<HostKey>, palette: seq<string>, k: nat, p: nat)
    requires |labels| == |scan.hosts| && |shown| <= |palette| && k < |scan.unidentifiedHosts|
    requires p == 2 + |scan.hosts| + 2 * |shown| + k
    ensures p < |CellsWith(scan, labels, shown, palette)|
    ensures CellsWith(scan, labels, shown, palette)[p] ==
      UnidentifiedCell(scan.unidentifiedHosts[k], k, Fresh(|scan.hosts| + 2 * |shown| + k))
  {
    var hp := RootCells() + HostCells(scan.hosts, labels, 0, |scan.hosts|);
    var kp := KeyPart(scan, shown, palette);
    UnidentifiedCellsAt(scan.unidentifiedHosts, |scan.hosts| + 2 * |shown|, |scan.unidentifiedHosts|, k);
    KeyPartUnidentifiedAt(scan, shown, palette, k);
    ConcatAt(hp, kp, 2 * |shown| + k, p);
  }

  lemma CellsLength(scan: Scan, labels: seq<string>, shown: seq<HostKey>, palette: seq<string>)
    requires |labels| == |scan.hosts| && |shown| <= |palette|
    ensures |CellsWith(scan, labels, shown, palette)| == 2 + |scan.hosts| + 2 * |shown| + |scan.unidentifiedHosts|
    ensures !OnLayer(CellsWith(scan, labels, shown, palette)[0]) && !OnLayer(CellsWith(scan, labels, shown, palette)[1])
  {
  }

  /** The cell at each position of the diagram: a box at the slots of
      hosts, fingerprint groups and unidentified hosts, a cell off the layer
      at the root and key-icon slots. */
  lemma CellsAt(scan: Scan, labels: seq<string>, shown: seq<HostKey>, palette: seq<string>, p: nat)
    requires |labels| == |scan.hosts| && |shown| <= |palette|
    requires p < |CellsWith(scan, labels, shown, palette)|
    ensures var s := SlotOf(|scan.hosts|, |shown|, p);
      if s.RootSlot? || s.IconSlot? then !OnLayer(CellsWith(scan, labels, shown, palette)[p])
      else IsBoxSlot(scan, shown, s) && CellsWith(scan, labels, shown, palette)[p] == BoxAt(scan, labels, shown, s)
  {
    if p < 2 + |scan.hosts| {
      CellsAtHosts(scan, labels, shown, palette, p);
    } else {
      CellsAtKeys(scan, labels, shown, palette, p);
    }
  }

  lemma CellsAtHosts(scan: Scan, labels: seq<string>, shown: seq<HostKey>, palette: seq<string>, p: nat)
    requires |labels| == |scan.hosts| && |shown| <= |palette|
    requires p < 2 + |scan.hosts|
    ensures p < |CellsWith(scan, labels, shown, palette)|
    ensures var s := SlotOf(|scan.hosts|, |shown|, p);
      if s.RootSlot? then !OnLayer(CellsWith(scan, labels, shown, palette)[p])
      else s.HostSlot? && IsBoxSlot(scan, shown, s) && CellsWith(scan, labels, shown, palette)[p] == BoxAt(scan, labels, shown, s)
  {
    if p < 2 {
      CellsLength(scan, labels, shown, palette);
    } else {
      CellsHostAt(scan, labels, shown, palette, p - 2, p);
    }
  }

  lemma CellsAtKeys(scan: Scan, labels: seq<string>, shown: seq<HostKey>, palette: seq<string>, p: nat)
    requires |labels| == |scan.hosts| && |shown| <= |palette|
    requires 2 + |scan.hosts| <= p < |CellsWith(scan, labels, shown, palette)|
    ensures var s := SlotOf(|scan.hosts|, |shown|, p);
      if s.IconSlot? then !OnLayer(CellsWith(scan, labels, shown, palette)[p])
      else IsBoxSlot(scan, shown, s) && CellsWith(scan, labels, shown, palette)[p] == BoxAt(scan, labels, shown, s)
  {
    var n, m := |scan.hosts|, |shown|;
    if p < 2 + n + 2 * m {
      CellsKeyRegionAt(scan, labels, shown, palette, p);
    } else {
      CellsLength(scan, labels, shown, palette);
      CellsUnidentifiedAt(scan, labels, shown, palette, p - 2 - n - 2 * m, p);
    }
  }

  /** In the fingerprint part, even offsets hold boxes and odd ones key icons. */
  lemma CellsKeyRegionAt(scan: Scan, labels: seq<string>, shown: seq<HostKey>, palette: seq<string>, p: nat)
    requires |labels| == |scan.hosts| && |shown| <= |palette|
    requires 2 + |scan.hosts| <= p < 2 + |scan.hosts| + 2 * |shown|
    ensures p < |CellsWith(scan, labels, shown, palette)|
    ensures var s := SlotOf(|scan.hosts|, |shown|, p);
      (s.KeySlot? || s.IconSlot?) &&
      (s.KeySlot? ==> s.j < |shown| && CellsWith(scan, labels, shown, palette)[p] == FingerprintCell(shown[s.j], s.j, Fresh(|scan.hosts| + 2 * s.j))) &&
      (s.IconSlot? ==> !OnLayer(CellsWith(scan, labels, shown, palette)[p]))
  {
    var n := |scan.hosts|;
    var j := (p - 2 - n) / 2;
    if (p - 2 - n) % 2 == 0 {
      CellsKeyAt(scan, labels, shown, palette, j, p);
    } else {
      CellsKeyAt(scan, labels, shown, palette, j, p - 1);
    }
  }

  /** Past the two root cells, different positions fall in different slots. */
  lemma SlotOfInjective(n: nat, m: nat, p: nat, q: nat)
    requires 2 <= p && 2 <= q && p != q
    ensures SlotOf(n, m, p) != SlotOf(n, m, q)
  {
    if 2 + n <= p < 2 + n + 2 * m && 2 + n <= q < 2 + n + 2 * m {
      var a, b := p - 2 - n, q - 2 - n;
      assert a == 2 * (a / 2) + a % 2;
      assert b == 2 * (b / 2) + b % 2;
      assert a / 2 != b / 2 || a % 2 != b % 2;
    }
  }

  /** Boxes at two different slots do not overlap. */
  lemma BoxesApart(scan: Scan, labels: seq<string>, shown: seq<HostKey>, s: Slot, t: Slot)
    requires |labels| == |scan.hosts|
    requires IsBoxSlot(scan, shown, s) && IsBoxSlot(scan, shown, t) && s != t
    ensures Apart(BoxAt(scan, labels, shown, s), BoxAt(scan, labels, shown, t))
  {
    var c, d := BoxAt(scan, labels, shown, s), BoxAt(scan, labels, shown, t);
    var hosts := scan.hosts;
    var noHost := UnidentifiedHost("", "");
    var noKey := HostKey("", "", "", "");
    var noAddress := AddressOnlyHost("", "");
    if s.HostSlot? && t.HostSlot? {
      DrawnBoxesDoNotOverlap(hosts, s.i, t.i, c.id, d.id, c.value, d.value, noHost, 0, noKey, 0, c.id, d.id);
    } else if s.HostSlot? {
      if t.KeySlot? {
        DrawnBoxesDoNotOverlap(hosts, s.i, s.i, c.id, c.id, c.value, c.value, noHost, 0, shown[t.j], t.j, d.id, d.id);
      } else {
        DrawnBoxesDoNotOverlap(hosts, s.i, s.i, c.id, c.id, c.value, c.value, scan.unidentifiedHosts[t.k], t.k, noKey, 0, d.id, d.id);
      }
    } else if t.HostSlot? {
      if s.KeySlot? {
        DrawnBoxesDoNotOverlap(hosts, t.i, t.i, d.id, d.id, d.value, d.value, noHost, 0, shown[s.j], s.j, c.id, c.id);
      } else {
        DrawnBoxesDoNotOverlap(hosts, t.i, t.i, d.id, d.id, d.value, d.value, scan.unidentifiedHosts[s.k], s.k, noKey, 0, c.id, c.id);
      }
    } else if s.KeySlot? && t.KeySlot? {
      DrawnStacksDoNotOverlap(noHost, 0, noHost, 0, c.id, d.id, shown[s.j], s.j, shown[t.j], t.j, c.id, d.id);
    } else if s.KeySlot? {
      DrawnBoxesDoNotOverlap([noAddress], 0, 0, c.id, c.id, "", "", scan.unidentifiedHosts[t.k], t.k, shown[s.j], s.j, d.id, c.id);
    } else if t.KeySlot? {
      DrawnBoxesDoNotOverlap([noAddress], 0, 0, c.id, c.id, "", "", scan.unidentifiedHosts[s.k], s.k, shown[t.j], t.j, c.id, d.id);
    } else {
      DrawnStacksDoNotOverlap(scan.unidentifiedHosts[s.k], s.k, scan.unidentifiedHosts[t.k], t.k, c.id, d.id,
        noKey, 0, noKey, 0, c.id, d.id);
    }
  }

  lemma CellsBoxesApart(scan: Scan, labels: seq<string>, shown: seq<HostKey>, palette: seq<string>, p: nat, q: nat)
    requires |labels| == |scan.hosts| && |shown| <= |palette|
    requires p < |CellsWith(scan, labels, shown, palette)| && q < |CellsWith(scan, labels, shown, palette)| && p != q
    requires OnLayer(CellsWith(scan, labels, shown, palette)[p]) && OnLayer(CellsWith(scan, labels, shown, palette)[q])
    ensures Apart(CellsWith(scan, labels, shown, palette)[p], CellsWith(scan, labels, shown, palette)[q])
  {
    CellsAt(scan, labels, shown, palette, p);
    CellsAt(scan, labels, shown, palette, q);
    assert 2 <= p && 2 <= q;
    SlotOfInjective(|scan.hosts|, |shown|, p, q);
    BoxesApart(scan, labels, shown, SlotOf(|scan.hosts|, |shown|, p), SlotOf(|scan.hosts|, |shown|, q));
  }

  /** No two boxes of the diagram overlap: host boxes, fingerprint boxes and
      unidentified hosts, within and across the three families. */
  lemma DiagramBoxesApart(scan: Scan, shown: seq<HostKey>, palette: seq<string>, p: nat, q: nat)
    requires |shown| <= |palette|
    requires p < |Diagram(scan, shown, palette)| && q < |Diagram(scan, shown, palette)| && p != q
    requires OnLayer(Diagram(scan, shown, palette)[p]) && OnLayer(Diagram(scan, shown, palette)[q])
    ensures Apart(Diagram(scan, shown, palette)[p], Diagram(scan, shown, palette)[q])
  {
    DiagramWithLabels(scan, shown, palette);
    CellsBoxesApart(scan, HostLabels(scan.hosts), shown, palette, p, q);
  }

  /** The package-level hostGroups map of exporter/exporter.go, which
      addHostsWithSameFingerprint fills and never clears. */
  class FingerprintGroups {
    var hostGroups: map<HostKey, seq<Host>>

    constructor ()
      ensures hostGroups == map[]
    {
      hostGroups := map[];
    }

    /** The grouping loops: every key with a fingerprint on every port of
        every host appends that host to the key's group. */
    method GroupHosts(scan: Scan)
      modifies this
      ensures hostGroups == Grouped(old(hostGroups), Occurrences(scan.hosts))
    {
      var hosts := scan.hosts;
      for i := 0 to |hosts|
        invariant hostGroups == Grouped(old(hostGroups), Occurrences(hosts[..i]))
      {
        var host := hosts[i];
        ghost var atHost := hostGroups;
        for j := 0 to |host.ports|
          invariant hostGroups == Grouped(atHost, PortOccurrences(host.ports[..j], host))
        {
          var keys := KeyList(host.ports[j].hostKeys);
          ghost var atPort := hostGroups;
          for l := 0 to |keys|
            invariant hostGroups == Grouped(atPort, KeyOccurrences(keys[..l], host))
          {
            var hostKey := keys[l];
            GroupKeyStep(atPort, keys, l, host);
            if hostKey.fingerprint != "" {
              hostGroups := hostGroups[hostKey := GroupOf(hostGroups, hostKey) + [host]];
            }
          }
          assert keys[..|keys|] == keys;
          GroupPortStep(atHost, host.ports, j, host);
        }
        assert host.ports[..|host.ports|] == host.ports;
        GroupHostStep(old(hostGroups), hosts, i);
      }
      assert hosts[..|hosts|] == hosts;
    }

    /** The drawing loop: the map is visited in `order`; each key takes the
        next colour of the palette, and a key whose group holds more than one
        host gets a box below the previous one, with its key icon. */
    method EmitBoxes(cells: seq<Cell>, order: seq<HostKey>, palette: seq<string>, firstId: nat)
      returns (r: seq<Cell>, nextId: nat)
      requires Distinct(order)
      requires forall k :: k in order <==> k in hostGroups
      requires |palette| == |hostGroups|
      ensures |Emitted(order, hostGroups)| <= |palette|
      ensures r == cells + FingerprintCells(Emitted(order, hostGroups), palette, firstId)
      ensures nextId == firstId + 2 * |Emitted(order, hostGroups)|
    {
      var groups := hostGroups;
      OrderCoversMap(order, groups);
      r, nextId := cells, firstId;
      var index := 0;
      var currentX, currentY := FingerprintX, FingerprintY;
      for p := 0 to |order|
        invariant index == |Emitted(order[..p], groups)| <= p
        invariant r == cells + FingerprintCells(Emitted(order[..p], groups), palette, firstId)
        invariant nextId == firstId + 2 * index
        invariant currentX == FingerprintX && currentY == FingerprintRect(index).y
      {
        var duplicateKey := order[p];
        var hosts := groups[duplicateKey];
        duplicateKey := duplicateKey.(color := palette[index]);
        if |hosts| <= 1 {
          SkippedStep(order, groups, palette, firstId, p);
          continue;
        }
        var box, icon := MakeFingerprintCells(duplicateKey, index, firstId, currentX, currentY);
        DrawnStep(cells, order, groups, palette, firstId, p, index, r, duplicateKey, box, icon);
        r := r + [box];
        r := r + [icon];
        nextId := nextId + 2;
        FingerprintRectNext(index);
        currentY := currentY + FingerprintBaseHeight + Padding;
        index := index + 1;
      }
      assert order[..|order|] == order;
    }

    /** addHostsWithSameFingerprint: group the scan's hosts into the map,
        then draw the keys whose group holds more than one host. */
    method AddHostsWithSameFingerprint(cells: seq<Cell>, scan: Scan, order: seq<HostKey>, palette: seq<string>, firstId: nat)
      returns (r: seq<Cell>, nextId: nat)
      modifies this
      requires Distinct(order)
      requires forall k :: k in order <==> k in Grouped(hostGroups, Occurrences(scan.hosts))
      requires |palette| == |Grouped(hostGroups, Occurrences(scan.hosts))|
      ensures hostGroups == Grouped(old(hostGroups), Occurrences(scan.hosts))
      ensures forall k :: k in order <==> k in hostGroups
      ensures |Emitted(order, hostGroups)| <= |palette|
      ensures r == cells + FingerprintCells(Emitted(order, hostGroups), palette, firstId)
      ensures nextId == firstId + 2 * |Emitted(order, hostGroups)|
    {
      GroupHosts(scan);
      r, nextId := EmitBoxes(cells, order, palette, firstId);
    }

    /** Export without the XML envelope: the cells of Diagram for the keys
        drawn. */
    method Export(scan: Scan, order: seq<HostKey>, palette: seq<string>) returns (cells: seq<Cell>)
      modifies this
      requires Distinct(order)
      requires forall k :: k in order <==> k in Grouped(hostGroups, Occurrences(scan.hosts))
      requires |palette| == |Grouped(hostGroups, Occurrences(scan.hosts))|
      ensures hostGroups == Grouped(old(hostGroups), Occurrences(scan.hosts))
      ensures forall k :: k in order <==> k in hostGroups
      ensures |Emitted(order, hostGroups)| <= |palette|
      ensures cells == Diagram(scan, Emitted(order, hostGroups), palette)
    {
      var withHosts, afterHosts := AddHosts(RootCells(), scan, 0);
      assert withHosts == HostPart(scan);
      var withKeys, afterKeys := AddHostsWithSameFingerprint(withHosts, scan, order, palette, afterHosts);
      ghost var shown := Emitted(order, hostGroups);
      var afterUnidentified;
      cells, afterUnidentified := AddUnidentifiedHosts(withKeys, scan, afterKeys);
      KeyParts(scan, shown, palette, afterHosts, afterKeys, withHosts, withKeys, cells);
      assert shown == Emitted(order, hostGroups);
    }
  }
}
