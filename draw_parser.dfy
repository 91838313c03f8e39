/** The draw parser, parser/draw_parser.py: seeds and draw numbers read from text, the scan
    of a draw sheet into group blocks, and the saving of the parsed rows in chunks. */
module DrawParser {
  import opened Common
  import SeedAnalysis

  // ---------------------------------------------------------------------------
  // Digit runs

  /** The end of the run of digits that starts at `i`. */
  function DigitRun(s: string, i: nat): (j: nat)
    requires i <= |s|
    ensures i <= j <= |s| && AllDigits(s[i..j])
    ensures j == |s| || !IsDigit(s[j])
    decreases |s| - i
  {
    if i < |s| && IsDigit(s[i]) then DigitRun(s, i + 1) else i
  }

  /** A run of digits ends at the first non-digit (or the end of the text) after it. */
  lemma {:induction false} DigitRunStops(s: string, i: nat, j: nat)
    requires i <= j <= |s| && AllDigits(s[i..j]) && (j == |s| || !IsDigit(s[j]))
    ensures DigitRun(s, i) == j
    decreases j - i
  {
    if i < j {
      assert s[i] == s[i..j][0];
      assert s[i + 1..j] == s[i..j][1..];
      DigitRunStops(s, i + 1, j);
    }
  }

  // ---------------------------------------------------------------------------
  // extract_seed

  /** A cell of a draw sheet. */
  datatype Cell = Blank | Text(text: string) | Num(n: int)

  /** The text of a seed: digits, or digits '/' digits. */
  ghost predicate SeedForm(t: string)
  {
    (t != [] && AllDigits(t))
    || exists k :: 0 < k < |t| - 1 && t[k] == '/' && AllDigits(t[..k]) && AllDigits(t[k + 1..])
  }

  /** `[t]` stands at `p` in `s` and `t` has seed form: a match of `\[(\d+(?:/\d+)?)\]`. */
  ghost predicate SeedMatch(s: string, p: nat, t: string)
  {
    p + |t| + 2 <= |s| && s[p] == '[' && s[p + 1..p + 1 + |t|] == t && s[p + 1 + |t|] == ']' && SeedForm(t)
  }

  /** The content of a seed bracket opening at `p`, if there is one. */
  function SeedAt(s: string, p: nat): Option<string>
    requires p < |s|
  {
    if s[p] != '[' then None
    else
      var j := DigitRun(s, p + 1);
      if j == p + 1 || j == |s| then None
      else if s[j] == ']' then Some(s[p + 1..j])
      else if s[j] != '/' then None
      else
        var k := DigitRun(s, j + 1);
        if k == j + 1 || k == |s| || s[k] != ']' then None else Some(s[p + 1..k])
  }

  lemma SeedAtSound(s: string, p: nat)
    requires p < |s| && SeedAt(s, p).Some?
    ensures SeedMatch(s, p, SeedAt(s, p).value)
  {
    var t := SeedAt(s, p).value;
    var j := DigitRun(s, p + 1);
    if s[j] != ']' {
      var k := DigitRun(s, j + 1);
      var m := j - (p + 1);
      assert t[..m] == s[p + 1..j];
      assert t[m + 1..] == s[j + 1..k];
    }
  }

  lemma SeedAtComplete(s: string, p: nat, t: string)
    requires SeedMatch(s, p, t)
    ensures SeedAt(s, p) == Some(t)
  {
    if t != [] && AllDigits(t) {
      DigitRunStops(s, p + 1, p + 1 + |t|);
    } else {
      var k :| 0 < k < |t| - 1 && t[k] == '/' && AllDigits(t[..k]) && AllDigits(t[k + 1..]);
      SeedAtSlash(s, p, t, k);
    }
  }

  /** The `digits/digits` case of SeedAtComplete. */
  lemma SeedAtSlash(s: string, p: nat, t: string, k: nat)
    requires p + |t| + 2 <= |s| && s[p] == '[' && s[p + 1..p + 1 + |t|] == t && s[p + 1 + |t|] == ']'
    requires 0 < k < |t| - 1 && t[k] == '/' && AllDigits(t[..k]) && AllDigits(t[k + 1..])
    ensures SeedAt(s, p) == Some(t)
  {
    var e := p + 1 + |t|;
    assert s[p + 1..p + 1 + k] == t[..k];
    DigitRunStops(s, p + 1, p + 1 + k);
    assert s[p + 2 + k..e] == t[k + 1..];
    DigitRunStops(s, p + 2 + k, e);
  }

  function SearchSeed(s: string, p: nat): Option<string>
    decreases |s| - p
  {
    if p >= |s| then None
    else if SeedAt(s, p).Some? then SeedAt(s, p)
    else SearchSeed(s, p + 1)
  }

  /** `extract_seed`: the content of the leftmost seed bracket of a string, None when the
      string has none, and None for a cell that is not a string. */
  function ExtractSeed(c: Cell): (r: Option<string>)
    ensures c.Text? && r.Some? ==>
      exists p :: SeedMatch(c.text, p, r.value) && forall q, t :: q < p ==> !SeedMatch(c.text, q, t)
    ensures c.Text? ==> (r.None? <==> forall p, t :: !SeedMatch(c.text, p, t))
    ensures !c.Text? ==> r.None?
  {
    if c.Text? then SearchSeedMeaning(c.text, 0); SearchSeed(c.text, 0) else None
  }

  lemma {:induction false} SearchSeedMeaning(s: string, p: nat)
    ensures SearchSeed(s, p).Some? ==>
      exists q :: p <= q && SeedMatch(s, q, SearchSeed(s, p).value)
        && forall q', t :: p <= q' < q ==> !SeedMatch(s, q', t)
    ensures SearchSeed(s, p).None? ==> forall q, t :: p <= q ==> !SeedMatch(s, q, t)
    decreases |s| - p
  {
    if p < |s| {
      forall t | SeedMatch(s, p, t) ensures SeedAt(s, p) == Some(t) {
        SeedAtComplete(s, p, t);
      }
      if SeedAt(s, p).Some? {
        SeedAtSound(s, p);
      } else {
        SearchSeedMeaning(s, p + 1);
        if SearchSeed(s, p).Some? {
          var q :| p + 1 <= q && SeedMatch(s, q, SearchSeed(s, p).value)
            && forall q', t :: p + 1 <= q' < q ==> !SeedMatch(s, q', t);
          assert forall q', t :: p <= q' < q ==> !SeedMatch(s, q', t);
        }
      }
    }
  }

  // ---------------------------------------------------------------------------
  // extract_number

  /** "Ausl_" followed by a digit stands at `p`. */
  predicate NumberAt(s: string, p: nat)
  {
    p + 6 <= |s| && s[p..p + 5] == "Ausl_" && IsDigit(s[p + 5])
  }

  /** The leftmost place from `p` on where `Ausl_\d` stands. */
  function SearchNumber(s: string, p: nat): (q: Option<nat>)
    ensures q.Some? ==> p <= q.value && NumberAt(s, q.value) && forall r :: p <= r < q.value ==> !NumberAt(s, r)
    ensures q.None? ==> forall r :: p <= r ==> !NumberAt(s, r)
    decreases |s| - p
  {
    if p + 6 > |s| then None
    else if NumberAt(s, p) then Some(p)
    else SearchNumber(s, p + 1)
  }

  /** `extract_number`: the digits after the leftmost "Ausl_", or the whole name when no
      "Ausl_" is followed by a digit. */
  function ExtractNumber(filename: string): (r: string)
    ensures r == filename || (r != [] && AllDigits(r))
  {
    match SearchNumber(filename, 0)
    case Some(p) => filename[p + 5..DigitRun(filename, p + 5)]
    case None => filename
  }

  /** The file of draw `n` gives back `n`, and the sort key `int(extract_number(...))` is `n`. */
  lemma ExtractNumberOfDraw(n: nat, ext: string)
    requires ext == [] || !IsDigit(ext[0])
    ensures ExtractNumber("Ausl_" + NatToString(n) + ext) == NatToString(n)
    ensures SeedAnalysis.ParseInt(ExtractNumber("Ausl_" + NatToString(n) + ext)) == Some(n)
  {
    var d := NatToString(n);
    var s := "Ausl_" + d + ext;
    assert s[..5] == "Ausl_" && s[5] == d[0];
    assert NumberAt(s, 0);
    assert s[5..5 + |d|] == d;
    DigitRunStops(s, 5, 5 + |d|);
    SeedAnalysis.ParseIntString(n);
  }

  // ---------------------------------------------------------------------------
  // The group-block scanner

  /** Columns 0, 2 and 3 of a row of the sheet "HE U13-Hauptfeld". */
  datatype Row = Row(c0: Cell, c2: Cell, c3: Cell)

  /** `str(cell)` (a blank cell is NaN). */
  function Str(c: Cell): string
  {
    match c
    case Text(t) => t
    case Num(n) => IntToString(n)
    case Blank => "nan"
  }

  predicate StartsWith(s: string, prefix: string)
  {
    |prefix| <= |s| && s[..|prefix|] == prefix
  }

  const Header: string := "HE U13 - Group"

  /** Labels in column 3 that are not players. */
  const SkipNames: seq<string> := ["WC", "St.", "Standings", "0", "Pl."]

  predicate IsHeader(row: Row)
  {
    row.c0.Text? && StartsWith(row.c0.text, Header)
  }

  /** The longest suffix without whitespace. */
  function TailToken(t: string): (r: string)
    ensures |r| <= |t| && r == t[|t| - |r|..]
    ensures forall i :: 0 <= i < |r| ==> !IsSpace(r[i])
    ensures |r| < |t| ==> IsSpace(t[|t| - |r| - 1])
  {
    if t == [] || IsSpace(t[|t| - 1]) then [] else TailToken(t[..|t| - 1]) + [t[|t| - 1]]
  }

  /** `split()[-1]`: the last whitespace-separated token. */
  function LastToken(s: string): (r: string)
    ensures forall i :: 0 <= i < |r| ==> !IsSpace(r[i])
  {
    TailToken(StripRight(s))
  }

  datatype Player = Player(club: Option<string>, name: string, seed: Option<string>)

  /** One entry of the `groups` dict: a group letter and its players in row order. */
  datatype Block = Block(group: string, players: seq<Player>)

  /** A player row, read once a group is current: column 3 present, its stripped text not
      empty, not "0" and not a skipped label; the seed comes from column 3, the club from
      column 2 (None when that cell is empty). */
  function PlayerOf(row: Row): (p: Option<Player>)
    ensures p.Some? ==> p.value.name != "" && p.value.name !in SkipNames && p.value.name == Strip(Str(row.c3))
    ensures p.Some? <==> row.c3 != Blank && Strip(Str(row.c3)) !in [""] + SkipNames
  {
    var name := Strip(Str(row.c3));
    if row.c3 == Blank || name == "" || name == "0" || name in SkipNames then None
    else
      var club := if row.c2 == Blank then None else Some(Strip(Str(row.c2)));
      Some(Player(club, name, ExtractSeed(Text(Str(row.c3)))))
  }

  /** The keys of the dict, in insertion order. */
  function Groups(blocks: seq<Block>): (r: seq<string>)
    ensures |r| == |blocks|
  {
    if blocks == [] then [] else [blocks[0].group] + Groups(blocks[1..])
  }

  /** `groups.get(g)`. */
  function PlayersOf(blocks: seq<Block>, g: string): (r: Option<seq<Player>>)
    ensures r.Some? <==> g in Groups(blocks)
  {
    if blocks == [] then None
    else if blocks[0].group == g then Some(blocks[0].players)
    else PlayersOf(blocks[1..], g)
  }

  predicate Distinct(gs: seq<string>)
  {
    forall i, j :: 0 <= i < j < |gs| ==> gs[i] != gs[j]
  }

  /** `groups[g] = []`: a new key goes last, an existing key keeps its place and loses its
      players; every other key is untouched. */
  function StartBlock(blocks: seq<Block>, g: string): (r: seq<Block>)
    ensures PlayersOf(r, g) == Some([])
    ensures forall h :: h != g ==> PlayersOf(r, h) == PlayersOf(blocks, h)
    ensures Groups(r) == if g in Groups(blocks) then Groups(blocks) else Groups(blocks) + [g]
  {
    if blocks == [] then [Block(g, [])]
    else if blocks[0].group == g then
      var r := [Block(g, [])] + blocks[1..];
      assert r[1..] == blocks[1..];
      r
    else
      var rest := StartBlock(blocks[1..], g);
      var r := [blocks[0]] + rest;
      assert r[1..] == rest;
      assert Groups(r) == [blocks[0].group] + Groups(rest);
      r
  }

  /** `groups[g].append(p)`: the players of `g` gain `p` at the end; nothing else changes. */
  function AddPlayer(blocks: seq<Block>, g: string, p: Player): (r: seq<Block>)
    ensures PlayersOf(r, g) == if g in Groups(blocks) then Some(PlayersOf(blocks, g).value + [p]) else None
    ensures forall h :: h != g ==> PlayersOf(r, h) == PlayersOf(blocks, h)
    ensures Groups(r) == Groups(blocks)
  {
    if blocks == [] then []
    else if blocks[0].group == g then [Block(g, blocks[0].players + [p])] + blocks[1..]
    else
      var r := [blocks[0]] + AddPlayer(blocks[1..], g, p);
      assert r[1..] == AddPlayer(blocks[1..], g, p);
      r
  }

  /** The scan's variables: `current_group` and `groups`. */
  datatype ScanState = ScanState(current: Option<string>, blocks: seq<Block>)

  const Start: ScanState := ScanState(None, [])

  /** What a row is to the scan. */
  datatype RowKind = HeaderRow(group: string) | PlayerRow(player: Player) | OtherRow

  /** A player as the scan keeps it. */
  predicate Kept(p: Player)
  {
    p.name != "" && p.name !in SkipNames
  }

  /** A row whose first cell starts with the header text opens the group named by its last
      token; any other row with a player in column 3 is a player row. */
  function KindOf(row: Row): (k: RowKind)
    ensures k.HeaderRow? <==> IsHeader(row)
    ensures k.PlayerRow? ==> Kept(k.player)
  {
    if IsHeader(row) then HeaderRow(LastToken(row.c0.text))
    else
      match PlayerOf(row)
      case Some(p) => PlayerRow(p)
      case None => OtherRow
  }

  /** One row of the scan. A header makes its group current and starts its block; a player
      row joins the current group, if there is a (non-empty) one. */
  function Step(st: ScanState, k: RowKind): ScanState
  {
    match k
    case HeaderRow(g) => ScanState(Some(g), StartBlock(st.blocks, g))
    case PlayerRow(p) =>
      if st.current.Some? && st.current.value != "" then ScanState(st.current, AddPlayer(st.blocks, st.current.value, p))
      else st
    case OtherRow => st
  }

  function ScanFrom(st: ScanState, rows: seq<Row>): ScanState
  {
    if rows == [] then st else Step(ScanFrom(st, rows[..|rows| - 1]), KindOf(rows[|rows| - 1]))
  }

  /** The state after scanning a whole sheet. */
  function Scan(rows: seq<Row>): ScanState
  {
    ScanFrom(Start, rows)
  }

  /** The row loop of one file. */
  method ScanSheet(rows: seq<Row>) returns (blocks: seq<Block>)
    ensures blocks == Scan(rows).blocks
  {
    var current: Option<string> := None;
    blocks := [];
    for i := 0 to |rows|
      invariant ScanState(current, blocks) == Scan(rows[..i])
    {
      current, blocks := ScanRow(current, blocks, rows[i]);
      assert rows[..i + 1][..i] == rows[..i];
      assert Scan(rows[..i + 1]) == Step(Scan(rows[..i]), KindOf(rows[i]));
    }
    assert rows[..|rows|] == rows;
  }

  /** The body of the row loop. */
  method ScanRow(current: Option<string>, blocks: seq<Block>, row: Row) returns (current': Option<string>, blocks': seq<Block>)
    ensures ScanState(current', blocks') == Step(ScanState(current, blocks), KindOf(row))
  {
    current', blocks' := current, blocks;
    match KindOf(row)
    case HeaderRow(g) =>
      current' := Some(g);
      blocks' := StartBlock(blocks, g);
    case PlayerRow(p) =>
      if current.Some? && current.value != "" {
        blocks' := AddPlayer(blocks, current.value, p);
      }
    case OtherRow =>
  }

  /** Scanning two pieces of a sheet is scanning the first and going on with the second. */
  lemma {:induction false} ScanAppend(st: ScanState, a: seq<Row>, b: seq<Row>)
    ensures ScanFrom(st, a + b) == ScanFrom(ScanFrom(st, a), b)
  {
    if b == [] {
      assert a + b == a;
    } else {
      var init := b[..|b| - 1];
      ScanAppend(st, a, init);
      assert (a + b)[..|a + b| - 1] == a + init;
      assert (a + b)[|a + b| - 1] == b[|b| - 1];
    }
  }

  lemma {:induction false} NoHeaderNoChange(pre: seq<Row>)
    requires forall i :: 0 <= i < |pre| ==> !IsHeader(pre[i])
    ensures Scan(pre) == Start
  {
    if pre != [] {
      NoHeaderNoChange(pre[..|pre| - 1]);
    }
  }

  /** Rows before the first header are ignored. */
  lemma LeadingRowsIgnored(pre: seq<Row>, rows: seq<Row>)
    requires forall i :: 0 <= i < |pre| ==> !IsHeader(pre[i])
    ensures Scan(pre + rows) == Scan(rows)
  {
    ScanAppend(Start, pre, rows);
    NoHeaderNoChange(pre);
  }

  /** What every scan state satisfies: distinct group keys, the current group is a key,
      and no kept player is empty or a skipped label. */
  ghost predicate ScanInv(st: ScanState)
  {
    Distinct(Groups(st.blocks))
    && (st.current.Some? ==> st.current.value in Groups(st.blocks))
    && forall g, p :: PlayersOf(st.blocks, g).Some? && p in PlayersOf(st.blocks, g).value ==> Kept(p)
  }

  /** One step of the scan keeps ScanInv, given a player that is kept. */
  lemma StepInvariant(st: ScanState, k: RowKind)
    requires ScanInv(st) && (k.PlayerRow? ==> Kept(k.player))
    ensures ScanInv(Step(st, k))
  {
    match k
    case HeaderRow(g) => HeaderInvariant(st, g);
    case PlayerRow(q) =>
      if st.current.Some? && st.current.value != "" {
        PlayerInvariant(st, q);
      }
    case OtherRow =>
  }

  lemma HeaderInvariant(st: ScanState, g: string)
    requires ScanInv(st)
    ensures ScanInv(ScanState(Some(g), StartBlock(st.blocks, g)))
  {
    var r := StartBlock(st.blocks, g);
    forall h, p | PlayersOf(r, h).Some? && p in PlayersOf(r, h).value ensures Kept(p) {
      assert h != g;
    }
  }

  lemma PlayerInvariant(st: ScanState, q: Player)
    requires ScanInv(st) && Kept(q) && st.current.Some? && st.current.value != ""
    ensures ScanInv(ScanState(st.current, AddPlayer(st.blocks, st.current.value, q)))
  {
    var g := st.current.value;
    var r := AddPlayer(st.blocks, g, q);
    forall h, p | PlayersOf(r, h).Some? && p in PlayersOf(r, h).value ensures Kept(p) {
      if h == g && p != q {
        assert p in PlayersOf(st.blocks, g).value;
      }
    }
  }

  /** The scan of any sheet keeps distinct group keys, a current group that is a key, and
      only players that are not empty or skipped labels. */
  lemma {:induction false} ScanInvariant(rows: seq<Row>)
    ensures ScanInv(Scan(rows))
  {
    if rows != [] {
      ScanInvariant(rows[..|rows| - 1]);
      StepInvariant(Scan(rows[..|rows| - 1]), KindOf(rows[|rows| - 1]));
    }
  }

  /** A player row under the current group lands at the end of that group's list. */
  lemma PlayerRowAppends(rows: seq<Row>, row: Row)
    requires KindOf(row).PlayerRow?
    requires Scan(rows).current.Some? && Scan(rows).current.value != ""
    ensures var g := Scan(rows).current.value;
      PlayersOf(Scan(rows).blocks, g).Some?
      && PlayersOf(Scan(rows + [row]).blocks, g) == Some(PlayersOf(Scan(rows).blocks, g).value + [KindOf(row).player])
  {
    ScanInvariant(rows);
    assert (rows + [row])[..|rows|] == rows;
  }

  /** A header row makes its last token the current group, which then has no players; the
      keys seen so far stay, in their order. */
  lemma HeaderStartsGroup(rows: seq<Row>, row: Row)
    requires IsHeader(row)
    ensures Scan(rows + [row]).current == Some(LastToken(row.c0.text))
    ensures PlayersOf(Scan(rows + [row]).blocks, LastToken(row.c0.text)) == Some([])
    ensures Groups(Scan(rows).blocks) <= Groups(Scan(rows + [row]).blocks)
  {
    assert (rows + [row])[..|rows|] == rows;
  }

  // ---------------------------------------------------------------------------
  // Records and chunks

  /** One output row: "File", "Group", "Club", "Name", "Seed". */
  datatype Record = Record(file: string, group: string, club: Option<string>, name: string, seed: Option<string>)

  function BlockRecords(file: string, b: Block): seq<Record>
  {
    seq(|b.players|, i requires 0 <= i < |b.players| => Record(file, b.group, b.players[i].club, b.players[i].name, b.players[i].seed))
  }

  /** The rows of one file: every player of every block, blocks in dict order. */
  function FileRecords(file: string, blocks: seq<Block>): seq<Record>
  {
    if blocks == [] then [] else FileRecords(file, blocks[..|blocks| - 1]) + BlockRecords(file, blocks[|blocks| - 1])
  }

  /** Every row of a file carries the file's number, and the group and player of a block. */
  lemma {:induction false} FileRecordsFrom(file: string, blocks: seq<Block>, x: Record)
    requires x in FileRecords(file, blocks)
    ensures x.file == file
    ensures exists k :: 0 <= k < |blocks| && x.group == blocks[k].group && Player(x.club, x.name, x.seed) in blocks[k].players
  {
    var k := |blocks| - 1;
    var last := BlockRecords(file, blocks[k]);
    if x in last {
      var i :| 0 <= i < |last| && last[i] == x;
      assert blocks[k].players[i] == Player(x.club, x.name, x.seed);
    } else {
      FileRecordsFrom(file, blocks[..k], x);
      var j :| 0 <= j < k && x.group == blocks[..k][j].group && Player(x.club, x.name, x.seed) in blocks[..k][j].players;
      assert blocks[..k][j] == blocks[j];
    }
  }

  /** One Excel file of the folder: its name, and its sheet (None when reading it fails). */
  datatype Source = Source(name: string, sheet: Option<seq<Row>>)

  /** What one file yields: its rows, or None when reading it fails. */
  function Outcome(src: Source): Option<seq<Record>>
  {
    if src.sheet.Some? then Some(FileRecords(ExtractNumber(src.name), Scan(src.sheet.value).blocks)) else None
  }

  /** Reading one file and scanning its sheet. */
  method ReadFile(src: Source) returns (out: Option<seq<Record>>)
    ensures out == Outcome(src)
  {
    if src.sheet.None? {
      return None;
    }
    var blocks := ScanSheet(src.sheet.value);
    out := Some(FileRecords(ExtractNumber(src.name), blocks));
  }

  /** Every file of the folder read in turn: what each one yields, in file order. */
  method ReadAll(files: seq<Source>) returns (outs: seq<Option<seq<Record>>>)
    ensures |outs| == |files| && forall j :: 0 <= j < |files| ==> outs[j] == Outcome(files[j])
  {
    outs := [];
    for i := 0 to |files|
      invariant |outs| == i && forall j :: 0 <= j < i ==> outs[j] == Outcome(files[j])
    {
      var out := ReadFile(files[i]);
      outs := outs + [out];
    }
  }

  function Rows(out: Option<seq<Record>>): seq<Record>
  {
    if out.Some? then out.value else []
  }

  /** The rows of all readable files, in file order. */
  function Parsed(outs: seq<Option<seq<Record>>>): seq<Record>
  {
    if outs == [] then [] else Parsed(outs[..|outs| - 1]) + Rows(outs[|outs| - 1])
  }

  const ChunkSize: nat := 200

  /** A saved part file: its number and its rows. */
  datatype Chunk = Chunk(part: nat, records: seq<Record>)

  /** The loop's variables: `file_counter`, `chunk_counter`, `all_results`, and the parts
      written so far. */
  datatype Saver = Saver(fileCounter: nat, chunkCounter: nat, pending: seq<Record>, saved: seq<Chunk>)

  const Fresh: Saver := Saver(0, 1, [], [])

  /** The save test after file `n` of `total`: every `ChunkSize` files and at the last one. */
  function Flush(st: Saver, n: nat, total: nat, pending: seq<Record>): Saver
  {
    if n % ChunkSize == 0 || n == total then Saver(n, st.chunkCounter + 1, [], st.saved + [Chunk(st.chunkCounter, pending)])
    else Saver(n, st.chunkCounter, pending, st.saved)
  }

  /** One file as the loop is written: a file that fails to read is counted and then
      skipped by `continue`, past the save test. */
  function StepAsWritten(st: Saver, total: nat, out: Option<seq<Record>>): Saver
  {
    var n := st.fileCounter + 1;
    if out.None? then st.(fileCounter := n) else Flush(st, n, total, st.pending + out.value)
  }

  /** The rows of the written parts, in part order. */
  function SavedRows(saved: seq<Chunk>): seq<Record>
  {
    if saved == [] then [] else SavedRows(saved[..|saved| - 1]) + saved[|saved| - 1].records
  }

  lemma SavedRowsSnoc(saved: seq<Chunk>, c: Chunk)
    ensures SavedRows(saved + [c]) == SavedRows(saved) + c.records
  {
    assert (saved + [c])[..|saved|] == saved;
  }

  lemma ParsedSnoc(outs: seq<Option<seq<Record>>>, out: Option<seq<Record>>)
    ensures Parsed(outs + [out]) == Parsed(outs) + Rows(out)
  {
    assert (outs + [out])[..|outs|] == outs;
  }

  /** The loop as written: every file is counted and the parts are numbered from 1. */
  function RunAsWritten(outs: seq<Option<seq<Record>>>, total: nat): (r: Saver)
    ensures r.fileCounter == |outs| && r.chunkCounter == |r.saved| + 1
  {
    if outs == [] then Fresh else StepAsWritten(RunAsWritten(outs[..|outs| - 1], total), total, outs[|outs| - 1])
  }

  /** Every parsed row is kept exactly once, in a written part or still waiting. */
  lemma {:induction false} RunAsWrittenKeepsRows(outs: seq<Option<seq<Record>>>, total: nat)
    ensures SavedRows(RunAsWritten(outs, total).saved) + RunAsWritten(outs, total).pending == Parsed(outs)
  {
    if outs != [] {
      var init, last := outs[..|outs| - 1], outs[|outs| - 1];
      RunAsWrittenKeepsRows(init, total);
      assert outs == init + [last];
      StepAsWrittenKeeps(init, last, RunAsWritten(init, total), total);
    }
  }

  /** When the last file cannot be read, the rows still waiting are never written: with a
      readable first file and an unreadable second one, no part is saved at all. */
  lemma AsWrittenLosesRows(r: Record)
    ensures RunAsWritten([Some([r]), None], 2).saved == [] && Parsed([Some([r]), None]) == [r]
  {
    var outs: seq<Option<seq<Record>>> := [Some([r]), None];
    assert outs[..1] == [Some([r])];
    assert [Some([r])][..0] == [];
    assert RunAsWritten([Some([r])], 2) == Saver(1, 1, [r], []);
    assert Parsed([Some([r])]) == [r];
  }

  /** One step as written keeps every row once. */
  lemma StepAsWrittenKeeps(init: seq<Option<seq<Record>>>, out: Option<seq<Record>>, st: Saver, total: nat)
    requires SavedRows(st.saved) + st.pending == Parsed(init)
    ensures var r := StepAsWritten(st, total, out);
      SavedRows(r.saved) + r.pending == Parsed(init + [out])
  {
    ParsedSnoc(init, out);
    if out.None? {
      assert StepAsWritten(st, total, out) == st.(fileCounter := st.fileCounter + 1);
      assert Parsed(init + [out]) == Parsed(init) + [];
    } else {
      assert StepAsWritten(st, total, out) == StepFixed(st, total, out);
      StepFixedKeeps(init, out, st, total);
    }
  }




  /** The corrected file loop: the save test runs for every file, readable or not. */
  function StepFixed(st: Saver, total: nat, out: Option<seq<Record>>): Saver
  {
    Flush(st, st.fileCounter + 1, total, st.pending + Rows(out))
  }

  /** One corrected step keeps every row once. */
  lemma StepFixedKeeps(init: seq<Option<seq<Record>>>, out: Option<seq<Record>>, st: Saver, total: nat)
    requires SavedRows(st.saved) + st.pending == Parsed(init)
    ensures var r := StepFixed(st, total, out);
      SavedRows(r.saved) + r.pending == Parsed(init + [out])
  {
    var r := StepFixed(st, total, out);
    var n, pending := st.fileCounter + 1, st.pending + Rows(out);
    ParsedSnoc(init, out);
    assert SavedRows(st.saved) + pending == Parsed(init) + Rows(out);
    if n % ChunkSize == 0 || n == total {
      var c := Chunk(st.chunkCounter, pending);
      assert r.saved == st.saved + [c] && r.pending == [];
      SavedRowsSnoc(st.saved, c);
    } else {
      assert r.saved == st.saved && r.pending == pending;
    }
  }



  /** The corrected loop: every file is counted and the parts are numbered from 1. */
  function RunFixed(outs: seq<Option<seq<Record>>>, total: nat): (r: Saver)
    ensures r.fileCounter == |outs| && r.chunkCounter == |r.saved| + 1
  {
    if outs == [] then Fresh else StepFixed(RunFixed(outs[..|outs| - 1], total), total, outs[|outs| - 1])
  }

  /** Every parsed row is kept exactly once, in a written part or still waiting. */
  lemma {:induction false} RunFixedKeepsRows(outs: seq<Option<seq<Record>>>, total: nat)
    ensures SavedRows(RunFixed(outs, total).saved) + RunFixed(outs, total).pending == Parsed(outs)
  {
    if outs != [] {
      var init, last := outs[..|outs| - 1], outs[|outs| - 1];
      RunFixedKeepsRows(init, total);
      assert outs == init + [last];
      StepFixedKeeps(init, last, RunFixed(init, total), total);
    }
  }

  /** When every file can be read, the loop as written and the corrected one agree. */
  lemma {:induction false} FixedAgreesWhenAllRead(outs: seq<Option<seq<Record>>>, total: nat)
    requires forall i :: 0 <= i < |outs| ==> outs[i].Some?
    ensures RunAsWritten(outs, total) == RunFixed(outs, total)
  {
    if outs != [] {
      FixedAgreesWhenAllRead(outs[..|outs| - 1], total);
    }
  }

  function Min(a: int, b: int): int
  {
    if a <= b then a else b
  }

  /** One step of SaveParts while part `c + 1` is being filled: the file's rows join the
      waiting ones, and the save test fires exactly when the part is full. */
  lemma SaveStep(outs: seq<Option<seq<Record>>>, i: nat, c: nat)
    requires i < |outs| && c * 200 <= i < c * 200 + 200
    ensures Parsed(outs[c * 200..i + 1]) == Parsed(outs[c * 200..i]) + Rows(outs[i])
    ensures (i + 1) % 200 == 0 <==> i + 1 == (c + 1) * 200
  {
    var a := c * 200;
    assert outs[a..i + 1][..i - a] == outs[a..i];
  }

  /** Part `k + 1` holds the rows of files `k * 200` up to `(k + 1) * 200`,
      or up to the last of `total` files. */
  ghost predicate PartsOk(saved: seq<Chunk>, outs: seq<Option<seq<Record>>>, total: nat)
    requires total == |outs|
  {
    forall k :: 0 <= k < |saved| ==>
      saved[k].part == k + 1 && k * 200 <= Min((k + 1) * 200, total)
      && saved[k].records == Parsed(outs[k * 200..Min((k + 1) * 200, total)])
  }

  lemma PartsSnoc(saved: seq<Chunk>, outs: seq<Option<seq<Record>>>, total: nat, pending: seq<Record>)
    requires total == |outs| && PartsOk(saved, outs, total)
    requires |saved| * 200 <= Min((|saved| + 1) * 200, total)
    requires pending == Parsed(outs[|saved| * 200..Min((|saved| + 1) * 200, total)])
    ensures PartsOk(saved + [Chunk(|saved| + 1, pending)], outs, total)
  {
    var s := saved + [Chunk(|saved| + 1, pending)];
    assert forall k :: 0 <= k < |saved| ==> s[k] == saved[k];
  }

  /** What the corrected loop keeps after `i` files: the counters, the number of parts so
      far, the rows still waiting, and the parts already written. */
  ghost predicate SaverInv(st: Saver, outs: seq<Option<seq<Record>>>, i: nat)
    requires i <= |outs|
  {
    var c := |st.saved|;
    st.fileCounter == i && st.chunkCounter == c + 1
    && (i < |outs| ==> c * 200 <= i < c * 200 + 200 && st.pending == Parsed(outs[c * 200..i]))
    && (i == |outs| ==> i <= c * 200 < i + 200)
    && PartsOk(st.saved, outs, |outs|)
  }

  /** The step that saves a full part, before the last file, keeps SaverInv. */
  lemma FixedFlushFull(st: Saver, outs: seq<Option<seq<Record>>>, i: nat)
    requires i + 1 < |outs| && SaverInv(st, outs, i) && (i + 1) % 200 == 0
    ensures SaverInv(StepFixed(st, |outs|, outs[i]), outs, i + 1)
  {
    var c, pending := |st.saved|, st.pending + Rows(outs[i]);
    SaveStep(outs, i, c);
    assert StepFixed(st, |outs|, outs[i]) == Saver(i + 1, c + 2, [], st.saved + [Chunk(c + 1, pending)]);
    assert Min((c + 1) * 200, |outs|) == i + 1 == (c + 1) * 200;
    assert outs[i + 1..i + 1] == [];
    PartsSnoc(st.saved, outs, |outs|, pending);
  }

  /** The step for the last file saves the last part and keeps SaverInv. */
  lemma FixedFlushLast(st: Saver, outs: seq<Option<seq<Record>>>, i: nat)
    requires i + 1 == |outs| && SaverInv(st, outs, i)
    ensures SaverInv(StepFixed(st, |outs|, outs[i]), outs, i + 1)
  {
    var c, pending := |st.saved|, st.pending + Rows(outs[i]);
    SaveStep(outs, i, c);
    assert StepFixed(st, |outs|, outs[i]) == Saver(i + 1, c + 2, [], st.saved + [Chunk(c + 1, pending)]);
    assert Min((c + 1) * 200, |outs|) == i + 1;
    PartsSnoc(st.saved, outs, |outs|, pending);
  }

  /** A step that only collects rows keeps SaverInv. */
  lemma FixedKeep(st: Saver, outs: seq<Option<seq<Record>>>, i: nat)
    requires i < |outs| && SaverInv(st, outs, i)
    requires (i + 1) % 200 != 0 && i + 1 != |outs|
    ensures SaverInv(StepFixed(st, |outs|, outs[i]), outs, i + 1)
  {
    SaveStep(outs, i, |st.saved|);
  }

  /** Every corrected step keeps SaverInv. */
  lemma FixedStep(st: Saver, outs: seq<Option<seq<Record>>>, i: nat)
    requires i < |outs| && SaverInv(st, outs, i)
    ensures SaverInv(StepFixed(st, |outs|, outs[i]), outs, i + 1)
  {
    if i + 1 == |outs| {
      FixedFlushLast(st, outs, i);
    } else if (i + 1) % 200 == 0 {
      FixedFlushFull(st, outs, i);
    } else {
      FixedKeep(st, outs, i);
    }
  }

  lemma {:induction false} FixedInv(outs: seq<Option<seq<Record>>>, i: nat)
    requires i <= |outs|
    ensures SaverInv(RunFixed(outs[..i], |outs|), outs, i)
  {
    if i > 0 {
      FixedInv(outs, i - 1);
      RunFixedSnoc(outs, i, |outs|);
      FixedInvStep(outs, i, RunFixed(outs[..i - 1], |outs|), RunFixed(outs[..i], |outs|));
    }
  }

  lemma FixedInvStep(outs: seq<Option<seq<Record>>>, i: nat, prev: Saver, next: Saver)
    requires 0 < i <= |outs| && SaverInv(prev, outs, i - 1)
    requires next == StepFixed(prev, |outs|, outs[i - 1])
    ensures SaverInv(next, outs, i)
  {
    FixedStep(prev, outs, i - 1);
  }

  lemma RunFixedSnoc(outs: seq<Option<seq<Record>>>, i: nat, total: nat)
    requires 0 < i <= |outs|
    ensures RunFixed(outs[..i], total) == StepFixed(RunFixed(outs[..i - 1], total), total, outs[i - 1])
  {
    assert outs[..i][..i - 1] == outs[..i - 1];
  }

  /** `ceil(n / 200)` is the only count of parts between `n` and `n + 200`. */
  lemma PartCount(n: nat, c: nat)
    requires n <= c * 200 < n + 200
    ensures c == (n + 200 - 1) / 200
  {
  }

  /** The corrected loop writes part `k + 1` with exactly the rows of files `k * 200`
      up to `(k + 1) * 200` (fewer in the last part), so every parsed row is saved
      once, in file order. */
  lemma FixedParts(outs: seq<Option<seq<Record>>>)
    ensures |RunFixed(outs, |outs|).saved| == (|outs| + 200 - 1) / 200
    ensures PartsOk(RunFixed(outs, |outs|).saved, outs, |outs|)
  {
    FixedInv(outs, |outs|);
    assert outs[..|outs|] == outs;
    PartCount(|outs|, |RunFixed(outs, |outs|).saved|);
  }

  /** The file loop, corrected: after each file, readable or not, the save test runs.
      `outs` holds what each file yields. */
  method SaveParts(outs: seq<Option<seq<Record>>>) returns (saved: seq<Chunk>)
    ensures saved == RunFixed(outs, |outs|).saved
  {
    var fileCounter, chunkCounter, pending := 0, 1, [];
    saved := [];
    for i := 0 to |outs|
      invariant Saver(fileCounter, chunkCounter, pending, saved) == RunFixed(outs[..i], |outs|)
    {
      var out := outs[i];
      assert outs[..i + 1][..i] == outs[..i];
      fileCounter := fileCounter + 1;
      pending := pending + Rows(out);
      if fileCounter % 200 == 0 || fileCounter == |outs| {
        saved := saved + [Chunk(chunkCounter, pending)];
        pending := [];
        chunkCounter := chunkCounter + 1;
      }
    }
    assert outs[..|outs|] == outs;
  }

  /** The file loop of the parser script, corrected: the parts written for a folder of files. */
  method ParseFolder(files: seq<Source>) returns (outs: seq<Option<seq<Record>>>, saved: seq<Chunk>)
    ensures |outs| == |files| && forall j :: 0 <= j < |files| ==> outs[j] == Outcome(files[j])
    ensures saved == RunFixed(outs, |files|).saved
  {
    outs := ReadAll(files);
    saved := SaveParts(outs);
  }
}
