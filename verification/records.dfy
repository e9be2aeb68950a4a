/** The record assembler: turns the token lists of one sampled frame into
    the 20 order-book rows `process_video` appends, by fixed position. */
module Records {
  import opened Outcomes

  /** Rows of market depth read per frame. */
  const Depth: nat := 20
  /** Tokens the summary region must supply. */
  const SummaryWidth: nat := 10

  /** The ten summary fields only the first row of a frame carries. The
      volume field keeps the source's spelling of its column, `Volumn`. */
  datatype Summary = Summary(
    open: string, low: string, volumn: string, ltq: string, lowerCircuit: string,
    high: string, prevClose: string, avgPrice: string, ltt: string, upperCircuit: string)

  /** One order-book row: bid side (price, orders, quantity) and offer side
      (price, orders, quantity), plus the summary on the frame's first row. */
  datatype Record = Record(
    bidPrice: string, orders: string, qty: string,
    offer: string, orders1: string, qty1: string,
    summary: Option<Summary>)

  /** The cleaned token lists of the six order-book columns, top row first. */
  datatype Columns = Columns(
    bidPrice: seq<string>, orders: seq<string>, qty: seq<string>,
    offer: seq<string>, orders1: seq<string>, qty1: seq<string>)

  /** `s.replace(',', '')`: every comma removed, every other character kept
      in order. */
  function RemoveCommas(s: string): (r: string)
    ensures ',' !in r
    ensures |r| <= |s|
    ensures forall c :: c != ',' ==> multiset(r)[c] == multiset(s)[c]
    decreases |s|
  {
    if |s| == 0 then []
    else
      assert s == [s[0]] + s[1..];
      (if s[0] == ',' then [] else [s[0]]) + RemoveCommas(s[1..])
  }

  /** A string without commas passes through unchanged. */
  lemma {:induction false} RemoveCommasKeepsPlain(s: string)
    requires ',' !in s
    ensures RemoveCommas(s) == s
    decreases |s|
  {
    if |s| > 0 {
      assert s[0] in s;
      assert forall c :: c in s[1..] ==> c in s;
      RemoveCommasKeepsPlain(s[1..]);
    }
  }

  /** Removing commas works piecewise on a concatenation. */
  lemma {:induction false} RemoveCommasAppend(a: string, b: string)
    ensures RemoveCommas(a + b) == RemoveCommas(a) + RemoveCommas(b)
    decreases |a|
  {
    if |a| == 0 {
      assert a + b == b;
    } else {
      assert (a + b)[0] == a[0];
      assert (a + b)[1..] == a[1..] + b;
      RemoveCommasAppend(a[1..], b);
    }
  }

  /** A thousands separator between two comma-free digit groups disappears
      and the groups are joined: `"1,234"` becomes `"1234"`. */
  lemma DropsThousandsSeparator(high: string, low: string)
    requires ',' !in high && ',' !in low
    ensures RemoveCommas(high + "," + low) == high + low
  {
    var comma: string := [','];
    assert RemoveCommas(comma) == [] by { assert comma[1..] == []; }
    assert RemoveCommas(high + comma) == high by {
      RemoveCommasAppend(high, comma);
      RemoveCommasKeepsPlain(high);
    }
    assert RemoveCommas((high + comma) + low) == high + low by {
      RemoveCommasAppend(high + comma, low);
      RemoveCommasKeepsPlain(low);
    }
    assert high + "," + low == (high + comma) + low;
  }

  /** Removing commas twice is removing them once. */
  lemma RemoveCommasIdempotent(s: string)
    ensures RemoveCommas(RemoveCommas(s)) == RemoveCommas(s)
  {
    RemoveCommasKeepsPlain(RemoveCommas(s));
  }

  /** The columns of a row's dictionary. */
  datatype Column =
    | BidPrice | Orders | Qty | Offer | Orders1 | Qty1
    | Open | High | Low | PrevClose | Volumn | AvgPrice
    | LowerCircuit | UpperCircuit | Ltq | Ltt

  /** The column a dictionary key names, if any: reading a row back by key. */
  function ColumnOf(key: string): Option<Column> {
    if key == "Bid Price" then Some(BidPrice)
    else if key == "Orders" then Some(Orders)
    else if key == "QTY" then Some(Qty)
    else if key == "Offer" then Some(Offer)
    else if key == "Orders1" then Some(Orders1)
    else if key == "QTY1" then Some(Qty1)
    else if key == "Open" then Some(Open)
    else if key == "High" then Some(High)
    else if key == "Low" then Some(Low)
    else if key == "Prev.Close" then Some(PrevClose)
    else if key == "Volumn" then Some(Volumn)
    else if key == "Avg.Price" then Some(AvgPrice)
    else if key == "Lower circuit" then Some(LowerCircuit)
    else if key == "Upper circuit" then Some(UpperCircuit)
    else if key == "LTQ" then Some(Ltq)
    else if key == "LTT" then Some(Ltt)
    else None
  }

  /** The dictionary key the source uses for each column; reading the key
      back names the same column. */
  function KeyName(c: Column): (key: string)
    ensures ColumnOf(key) == Some(c)
  {
    match c
    case BidPrice => "Bid Price"
    case Orders => "Orders"
    case Qty => "QTY"
    case Offer => "Offer"
    case Orders1 => "Orders1"
    case Qty1 => "QTY1"
    case Open => "Open"
    case High => "High"
    case Low => "Low"
    case PrevClose => "Prev.Close"
    case Volumn => "Volumn"
    case AvgPrice => "Avg.Price"
    case LowerCircuit => "Lower circuit"
    case UpperCircuit => "Upper circuit"
    case Ltq => "LTQ"
    case Ltt => "LTT"
  }

  /** The six columns every row has. */
  const BaseColumns: set<Column> := {BidPrice, Orders, Qty, Offer, Orders1, Qty1}

  /** The ten columns only the first row of a frame adds. */
  const SummaryColumns: set<Column> :=
    {Open, High, Low, PrevClose, Volumn, AvgPrice, LowerCircuit, UpperCircuit, Ltq, Ltt}

  /** The six entries every row's dictionary gets. */
  function BaseFields(rec: Record): (d: map<Column, string>)
    ensures d.Keys == BaseColumns
    ensures d[BidPrice] == rec.bidPrice && d[Orders] == rec.orders && d[Qty] == rec.qty
    ensures d[Offer] == rec.offer && d[Orders1] == rec.orders1 && d[Qty1] == rec.qty1
  {
    map[BidPrice := rec.bidPrice, Orders := rec.orders, Qty := rec.qty,
        Offer := rec.offer, Orders1 := rec.orders1, Qty1 := rec.qty1]
  }

  /** The ten entries the first row's dictionary adds. */
  function SummaryFields(x: Summary): (d: map<Column, string>)
    ensures d.Keys == SummaryColumns
    ensures d[Open] == x.open && d[High] == x.high && d[Low] == x.low
    ensures d[PrevClose] == x.prevClose && d[Volumn] == x.volumn && d[AvgPrice] == x.avgPrice
    ensures d[LowerCircuit] == x.lowerCircuit && d[UpperCircuit] == x.upperCircuit
    ensures d[Ltq] == x.ltq && d[Ltt] == x.ltt
  {
    map[Open := x.open, High := x.high, Low := x.low,
        PrevClose := x.prevClose, Volumn := x.volumn, AvgPrice := x.avgPrice,
        LowerCircuit := x.lowerCircuit, UpperCircuit := x.upperCircuit,
        Ltq := x.ltq, Ltt := x.ltt]
  }

  /** The row as the dictionary the source builds. */
  function Fields(rec: Record): (d: map<Column, string>)
    ensures rec.summary.None? ==> d.Keys == BaseColumns
    ensures rec.summary.Some? ==> d.Keys == BaseColumns + SummaryColumns
  {
    match rec.summary
    case None => BaseFields(rec)
    case Some(x) => BaseFields(rec) + SummaryFields(x)
  }

  /** The first row carries 16 columns, every other row 6. */
  lemma KeyCounts()
    ensures |BaseColumns| == 6 && |SummaryColumns| == 10
    ensures |BaseColumns + SummaryColumns| == 16
  {
  }

  /** Different columns have different key names. */
  lemma KeyNamesDistinct()
    ensures forall a, b :: KeyName(a) == KeyName(b) ==> a == b
  {
  }

  /** No summary column is a base column. */
  lemma ColumnsDisjoint()
    ensures BaseColumns !! SummaryColumns
  {
  }

  /** An entry of the left map the right map does not override survives a
      union. */
  lemma UnionLeft<K, V>(left: map<K, V>, right: map<K, V>, k: K)
    requires k in left && k !in right
    ensures (left + right)[k] == left[k]
  {
  }

  /** Each base column of a row's dictionary holds the matching field. */
  lemma FieldsOfRow(rec: Record)
    ensures var d := Fields(rec);
      && d[BidPrice] == rec.bidPrice && d[Orders] == rec.orders
      && d[Qty] == rec.qty && d[Offer] == rec.offer
      && d[Orders1] == rec.orders1 && d[Qty1] == rec.qty1
  {
    match rec.summary
    case None =>
    case Some(x) =>
      var b, m := BaseFields(rec), SummaryFields(x);
      ColumnsDisjoint();
      forall c | c in BaseColumns ensures Fields(rec)[c] == b[c] {
        UnionLeft(b, m, c);
      }
  }

  /** A row's dictionary has 16 entries with the summary and 6 without. */
  lemma FieldsCount(rec: Record)
    ensures |Fields(rec)| == if rec.summary.Some? then 16 else 6
  {
    KeyCounts();
    assert |Fields(rec)| == |Fields(rec).Keys|;
  }

  /** Each summary column of a row's dictionary holds the matching summary
      field. */
  lemma FieldsOfSummary(rec: Record, x: Summary)
    requires rec.summary == Some(x)
    ensures var d := Fields(rec);
      && d[Open] == x.open && d[High] == x.high && d[Low] == x.low
      && d[PrevClose] == x.prevClose && d[Volumn] == x.volumn
      && d[AvgPrice] == x.avgPrice && d[LowerCircuit] == x.lowerCircuit
      && d[UpperCircuit] == x.upperCircuit && d[Ltq] == x.ltq && d[Ltt] == x.ltt
  {
    assert Fields(rec) == BaseFields(rec) + SummaryFields(x);
  }

  /** Every column list reaches the deepest row read. */
  predicate Covers(cols: Columns) {
    && |cols.bidPrice| >= Depth && |cols.orders| >= Depth && |cols.qty| >= Depth
    && |cols.offer| >= Depth && |cols.orders1| >= Depth && |cols.qty1| >= Depth
  }

  /** The 20 rows of one frame. A column list shorter than 20 tokens or a
      summary list shorter than 10 makes the source's fixed-index reads fail
      with `IndexError`. */
  function Assemble(cols: Columns, extra: seq<string>): (r: Result<seq<Record>>)
    ensures r.Success? <==> Covers(cols) && |extra| >= SummaryWidth
    ensures r.Failure? ==> r.error == IndexError
    ensures r.Success? ==> |r.value| == Depth
    ensures r.Success? ==> forall i :: 0 <= i < |r.value| ==>
              (r.value[i].summary.Some? <==> i == 0) && ',' !in r.value[i].bidPrice
  {
    if !Covers(cols) || |extra| < SummaryWidth then Failure(IndexError)
    else
      var summary := Summary(
        open := extra[0], low := extra[1], volumn := RemoveCommas(extra[2]),
        ltq := extra[3], lowerCircuit := extra[4], high := extra[5],
        prevClose := extra[6], avgPrice := extra[7], ltt := extra[8],
        upperCircuit := extra[9]);
      Success(seq(Depth, i requires 0 <= i < Depth =>
        Record(RemoveCommas(cols.bidPrice[i]), cols.orders[i], cols.qty[i],
               cols.offer[i], cols.orders1[i], cols.qty1[i],
               if i == 0 then Some(summary) else None)))
  }

  /** Row `i`'s dictionary takes token `i` of each column list: the bid price
      without commas, the other five verbatim. The first row's dictionary has
      16 keys, every other row's the 6 base keys. */
  lemma AssembleRows(cols: Columns, extra: seq<string>, i: nat)
    requires Assemble(cols, extra).Success?
    requires i < Depth
    ensures var d := Fields(Assemble(cols, extra).value[i]);
      && d.Keys == (if i == 0 then BaseColumns + SummaryColumns else BaseColumns)
      && |d| == (if i == 0 then 16 else 6)
      && d[BidPrice] == RemoveCommas(cols.bidPrice[i])
      && d[Orders] == cols.orders[i] && d[Qty] == cols.qty[i]
      && d[Offer] == cols.offer[i] && d[Orders1] == cols.orders1[i]
      && d[Qty1] == cols.qty1[i]
  {
    var rec := Assemble(cols, extra).value[i];
    FieldsOfRow(rec);
    FieldsCount(rec);
    assert rec.bidPrice == RemoveCommas(cols.bidPrice[i]) && rec.orders == cols.orders[i]
      && rec.qty == cols.qty[i] && rec.offer == cols.offer[i]
      && rec.orders1 == cols.orders1[i] && rec.qty1 == cols.qty1[i];
    assert rec.summary.Some? <==> i == 0;
  }

  /** The first row's summary columns come from fixed positions of the
      summary list, the volume without commas. */
  lemma AssembleSummary(cols: Columns, extra: seq<string>)
    requires Assemble(cols, extra).Success?
    ensures var d := Fields(Assemble(cols, extra).value[0]);
      && d[Open] == extra[0] && d[Low] == extra[1]
      && d[Volumn] == RemoveCommas(extra[2]) && d[Ltq] == extra[3]
      && d[LowerCircuit] == extra[4] && d[High] == extra[5]
      && d[PrevClose] == extra[6] && d[AvgPrice] == extra[7]
      && d[Ltt] == extra[8] && d[UpperCircuit] == extra[9]
  {
    var rec := Assemble(cols, extra).value[0];
    var x := Summary(
      extra[0], extra[1], RemoveCommas(extra[2]), extra[3], extra[4],
      extra[5], extra[6], extra[7], extra[8], extra[9]);
    assert rec.summary == Some(x);
    FieldsOfSummary(rec, x);
  }
}
