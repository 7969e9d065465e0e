/** The integer geometry of the diagram (exporter/exporter.go): hosts in
    columns of eight, the fingerprint boxes and the unidentified hosts in two
    stacks to the left of them. */
module Layout {
  import opened Model

  const Rows := 8
  const HostWidth := 260
  const HostBaseHeight := 160
  const AdditionalHeightPerPort := 20
  const Padding := 30

  const FingerprintX := -440
  const FingerprintY := 0
  const FingerprintWidth := 350
  const FingerprintBaseHeight := 70
  const FingerprintInsetX := 50

  const UnidentifiedX := -700
  const UnidentifiedY := 0
  const UnidentifiedWidth := 260
  const UnidentifiedHeight := 100

  /** An axis-aligned box: `y` grows downwards, as in draw.io. */
  datatype Rect = Rect(x: int, y: int, width: int, height: int)

  /** The interiors of two boxes intersect (touching edges do not count). */
  predicate Overlap(a: Rect, b: Rect)
  {
    a.x < b.x + b.width && b.x < a.x + a.width &&
    a.y < b.y + b.height && b.y < a.y + a.height
  }

  /** getHostHeight: a fixed base plus a line per port. */
  function HostHeight(h: Host): (r: int)
    ensures r >= HostBaseHeight
  {
    HostBaseHeight + |h.ports| * AdditionalHeightPerPort
  }

  /** Heights differ by 20 per port. */
  lemma HostHeightPerPort(a: Host, b: Host)
    ensures HostHeight(a) - HostHeight(b) == (|a.ports| - |b.ports|) * AdditionalHeightPerPort
    ensures |a.ports| == 5 && |b.ports| == 0 ==> HostHeight(a) == HostHeight(b) + 100
  {
  }

  /** The column of host i starts at host i - i % 8 and is 290 to the right
      of the previous one. */
  function HostX(i: nat): (x: int)
    ensures x >= 0
  {
    (i / Rows) * (HostWidth + Padding)
  }

  /** The Y of host i when its column begins with host `start`: the heights
      of the hosts above it in the column, each followed by the padding. */
  function ColumnOffset(hosts: seq<Host>, start: nat, i: nat): (y: int)
    requires start <= i <= |hosts|
    ensures y >= (i - start) * (HostBaseHeight + Padding)
    decreases i
  {
    if i == start then 0
    else ColumnOffset(hosts, start, i - 1) + HostHeight(hosts[i - 1]) + Padding
  }

  function ColumnStart(i: nat): nat
  {
    i - i % Rows
  }

  function HostY(hosts: seq<Host>, i: nat): int
    requires i < |hosts|
  {
    ColumnOffset(hosts, ColumnStart(i), i)
  }

  function HostRect(hosts: seq<Host>, i: nat): Rect
    requires i < |hosts|
  {
    Rect(HostX(i), HostY(hosts, i), HostWidth, HostHeight(hosts[i]))
  }

  /** Every later host of a column starts at least the padding below the
      bottom of an earlier one. */
  lemma {:induction false} ColumnOffsetGrows(hosts: seq<Host>, start: nat, i: nat, j: nat)
    requires start <= i < j <= |hosts|
    ensures ColumnOffset(hosts, start, j) >= ColumnOffset(hosts, start, i) + HostHeight(hosts[i]) + Padding
    decreases j
  {
    if j > i + 1 {
      ColumnOffsetGrows(hosts, start, i, j - 1);
    }
  }

  /** Columns are further apart than a host is wide. */
  lemma ColumnsApart(i: nat, j: nat)
    requires i / Rows < j / Rows
    ensures HostX(i) + HostWidth + Padding <= HostX(j)
  {
    StackApart(i / Rows, j / Rows, HostWidth + Padding, HostWidth + Padding - 1);
  }

  /** No two host boxes overlap. */
  lemma HostsDoNotOverlap(hosts: seq<Host>, i: nat, j: nat)
    requires i < |hosts| && j < |hosts| && i != j
    ensures !Overlap(HostRect(hosts, i), HostRect(hosts, j))
  {
    if i / Rows == j / Rows {
      assert ColumnStart(i) == ColumnStart(j);
      if i < j {
        ColumnOffsetGrows(hosts, ColumnStart(i), i, j);
      } else {
        ColumnOffsetGrows(hosts, ColumnStart(j), j, i);
      }
    } else if i / Rows < j / Rows {
      ColumnsApart(i, j);
    } else {
      ColumnsApart(j, i);
    }
  }

  /** The first host of every column is at the top. */
  lemma ColumnTop(hosts: seq<Host>, i: nat)
    requires i < |hosts| && i % Rows == 0
    ensures HostY(hosts, i) == 0 && HostX(i) == (i / Rows) * 290
  {
  }

  /** The k-th unidentified host. */
  function UnidentifiedRect(k: nat): Rect
  {
    Rect(UnidentifiedX, UnidentifiedY + k * (UnidentifiedHeight + Padding), UnidentifiedWidth, UnidentifiedHeight)
  }

  /** The box of the j-th fingerprint group that is shown. */
  function FingerprintRect(j: nat): Rect
  {
    Rect(FingerprintX, FingerprintY + j * (FingerprintBaseHeight + Padding), FingerprintWidth, FingerprintBaseHeight)
  }

  /** Each fingerprint box sits one padding below the previous one. */
  lemma FingerprintRectNext(j: nat)
    ensures FingerprintRect(j + 1).y == FingerprintRect(j).y + FingerprintBaseHeight + Padding
  {
  }

  /** Each unidentified host sits one padding below the previous one. */
  lemma UnidentifiedRectNext(k: nat)
    ensures UnidentifiedRect(k + 1).y == UnidentifiedRect(k).y + UnidentifiedHeight + Padding
  {
  }

  /** Boxes stacked with a fixed step larger than their height do not meet. */
  lemma {:induction false} StackApart(k: nat, l: nat, step: nat, height: int)
    requires k < l && height < step
    ensures k * step + height < l * step
    decreases l
  {
    assert l * step == (l - 1) * step + step;
    if l > k + 1 {
      StackApart(k, l - 1, step, height);
    }
  }

  lemma UnidentifiedDoNotOverlap(k: nat, l: nat)
    requires k != l
    ensures !Overlap(UnidentifiedRect(k), UnidentifiedRect(l))
  {
    if k < l {
      StackApart(k, l, UnidentifiedHeight + Padding, UnidentifiedHeight);
    } else {
      StackApart(l, k, UnidentifiedHeight + Padding, UnidentifiedHeight);
    }
  }

  lemma FingerprintBoxesDoNotOverlap(j: nat, l: nat)
    requires j != l
    ensures !Overlap(FingerprintRect(j), FingerprintRect(l))
  {
    if j < l {
      StackApart(j, l, FingerprintBaseHeight + Padding, FingerprintBaseHeight);
    } else {
      StackApart(l, j, FingerprintBaseHeight + Padding, FingerprintBaseHeight);
    }
  }

  /** The three families never meet: unidentified hosts end where the
      fingerprint boxes begin (x = -440), and those end left of the hosts. */
  lemma FamiliesDoNotOverlap(hosts: seq<Host>, i: nat, j: nat, k: nat)
    requires i < |hosts|
    ensures !Overlap(HostRect(hosts, i), FingerprintRect(j))
    ensures !Overlap(HostRect(hosts, i), UnidentifiedRect(k))
    ensures !Overlap(FingerprintRect(j), UnidentifiedRect(k))
  {
  }
}
