/** The anonymisation pass, parser/anonymization.py: clubs and players are relabelled
    `Club1, Club2, ...` and `Player1, Player2, ...` in order of first appearance, with the
    same dicts kept over all files. */
module Anonymization {
  import opened Common
  import opened DrawParser

  /** `xs` in order, without those in `seen` and without repeats: the values a labelling
      pass over `xs` adds to a dict that already holds `seen`. */
  function NewNames<K(==,!new)>(seen: seq<K>, xs: seq<K>): (r: seq<K>)
    ensures forall x :: x in r <==> x in xs && x !in seen
  {
    if xs == [] then []
    else
      var n := NewNames(seen, xs[..|xs| - 1]);
      var x := xs[|xs| - 1];
      assert xs == xs[..|xs| - 1] + [x];
      if x in seen || x in n then n else n + [x]
  }

  /** `unique()`: the values of a column in order of first appearance. */
  function UniqueValues<K(==,!new)>(xs: seq<K>): (r: seq<K>)
    ensures forall x :: x in r <==> x in xs
  {
    NewNames([], xs)
  }

  /** Going through the distinct values adds what going through the column would. */
  lemma {:induction false} NewNamesOfUniques<K(!new)>(seen: seq<K>, xs: seq<K>)
    ensures NewNames(seen, UniqueValues(xs)) == NewNames(seen, xs)
  {
    if xs != [] {
      var init, x := xs[..|xs| - 1], xs[|xs| - 1];
      NewNamesOfUniques(seen, init);
      var u := UniqueValues(init);
      if x !in u {
        assert UniqueValues(xs) == u + [x];
        assert (u + [x])[..|u|] == u;
      }
    }
  }

  /** Labelling one column after another is labelling their concatenation. */
  lemma {:induction false} NewNamesAppend<K(!new)>(seen: seq<K>, a: seq<K>, b: seq<K>)
    ensures NewNames(seen, a + b) == NewNames(seen, a) + NewNames(seen + NewNames(seen, a), b)
  {
    if b == [] {
      assert a + b == a;
    } else {
      var init := b[..|b| - 1];
      NewNamesAppend(seen, a, init);
      assert (a + b)[..|a + b| - 1] == a + init;
    }
  }

  /** Appending one value to a column. */
  lemma NewNamesSnoc<K(!new)>(seen: seq<K>, xs: seq<K>, x: K)
    ensures NewNames(seen, xs + [x])
      == if x in seen || x in NewNames(seen, xs) then NewNames(seen, xs) else NewNames(seen, xs) + [x]
  {
    assert (xs + [x])[..|xs|] == xs;
  }

  /** A dict that holds exactly the values of `order`, the `i`-th of them (from 0)
      labelled `prefix` followed by `i + 1`, with `counter` the next number. */
  ghost predicate Numbered<K(!new)>(prefix: string, table: map<K, string>, order: seq<K>, counter: nat)
  {
    counter == |order| + 1
    && (forall x :: x in table <==> x in order)
    && forall i :: 0 <= i < |order| ==> order[i] in table && table[order[i]] == prefix + NatToString(i + 1)
  }

  /** Labelling a new value with the counter keeps the numbering. */
  lemma NumberedAdd<K(!new)>(prefix: string, table: map<K, string>, order: seq<K>, counter: nat, x: K)
    requires Numbered(prefix, table, order, counter) && x !in table
    ensures Numbered(prefix, table[x := prefix + NatToString(counter)], order + [x], counter + 1)
  {
    var order', table' := order + [x], table[x := prefix + NatToString(counter)];
    assert forall y :: y in order' <==> y in order || y == x;
    forall i | 0 <= i < |order'| ensures order'[i] in table' && table'[order'[i]] == prefix + NatToString(i + 1) {
      if i < |order| {
        assert order'[i] == order[i] != x;
      } else {
        assert order'[i] == x && i + 1 == counter;
      }
    }
  }

  /** Distinct values never share a label. */
  lemma LabelsDistinct<K(!new)>(prefix: string, table: map<K, string>, order: seq<K>, counter: nat)
    requires Numbered(prefix, table, order, counter)
    ensures forall x, y :: x in table && y in table && x != y ==> table[x] != table[y]
  {
    forall x, y | x in table && y in table && x != y ensures table[x] != table[y] {
      var i :| 0 <= i < |order| && order[i] == x;
      var j :| 0 <= j < |order| && order[j] == y;
      assert table[x][|prefix|..] == NatToString(i + 1);
      assert table[y][|prefix|..] == NatToString(j + 1);
      NatToStringRoundTrip(i + 1);
      NatToStringRoundTrip(j + 1);
    }
  }

  /** One relabelling dict with its counter: `club_map` and `club_counter`, or
      `player_map` and `player_counter`. */
  class Labeller<K(==,!new)> {
    const prefix: string
    var table: map<K, string>
    var counter: nat
    /** The values in the order they received their labels. */
    ghost var order: seq<K>

    ghost predicate Valid()
      reads this
    {
      Numbered(prefix, table, order, counter)
    }

    /** An empty dict with its counter at 1. */
    constructor (prefix: string)
      ensures Valid() && this.prefix == prefix && table == map[] && order == []
    {
      this.prefix := prefix;
      table := map[];
      counter := 1;
      order := [];
    }

    /** `if x not in table: table[x] = prefix + str(counter); counter += 1`. */
    method Label(x: K)
      requires Valid()
      modifies this
      ensures Valid()
      ensures x in old(table) ==> table == old(table) && order == old(order)
      ensures x !in old(table) ==> table == old(table)[x := prefix + NatToString(old(counter))] && order == old(order) + [x]
    {
      if x !in table {
        NumberedAdd(prefix, table, order, counter, x);
        table := table[x := prefix + NatToString(counter)];
        counter := counter + 1;
        order := order + [x];
      }
    }

    /** The loop over `unique()` of one column: every value of the column gets a label,
        new values in order of first appearance, and no existing label changes. */
    method LabelAll(column: seq<K>)
      requires Valid()
      modifies this
      ensures Valid()
      ensures order == old(order) + NewNames(old(order), column)
      ensures forall x :: x in column ==> x in table
      ensures Extends(old(table), table)
    {
      var values := UniqueValues(column);
      for k := 0 to |values|
        invariant Valid()
        invariant order == old(order) + NewNames(old(order), values[..k])
        invariant Extends(old(table), table)
      {
        NewNamesSnoc(old(order), values[..k], values[k]);
        assert values[..k + 1] == values[..k] + [values[k]];
        Label(values[k]);
      }
      assert values[..|values|] == values;
      NewNamesOfUniques(old(order), column);
    }
  }

  /** Every entry of `small` is in `big` with the same label. */
  ghost predicate Extends<K>(small: map<K, string>, big: map<K, string>)
  {
    forall y :: y in small ==> y in big && big[y] == small[y]
  }

  /** A row after anonymisation: club and name replaced by their labels. */
  datatype Anonymised = Anonymised(file: string, group: string, club: string, name: string, seed: Option<string>)

  function Anon(r: Record, clubs: map<Option<string>, string>, players: map<string, string>): Anonymised
    requires r.club in clubs && r.name in players
  {
    Anonymised(r.file, r.group, clubs[r.club], players[r.name], r.seed)
  }

  function ClubColumn(rows: seq<Record>): seq<Option<string>>
  {
    seq(|rows|, i requires 0 <= i < |rows| => rows[i].club)
  }

  function NameColumn(rows: seq<Record>): seq<string>
  {
    seq(|rows|, i requires 0 <= i < |rows| => rows[i].name)
  }

  /** `out` is `rows` with every club and name replaced by its label. */
  ghost predicate Relabelled(rows: seq<Record>, out: seq<Anonymised>, clubs: map<Option<string>, string>, players: map<string, string>)
  {
    |out| == |rows|
    && forall i :: 0 <= i < |rows| ==> rows[i].club in clubs && rows[i].name in players && out[i] == Anon(rows[i], clubs, players)
  }

  /** Labels given once stay valid when the dicts grow. */
  lemma RelabelledExtends(rows: seq<Record>, out: seq<Anonymised>,
                          clubs: map<Option<string>, string>, players: map<string, string>,
                          clubs': map<Option<string>, string>, players': map<string, string>)
    requires Relabelled(rows, out, clubs, players) && Extends(clubs, clubs') && Extends(players, players')
    ensures Relabelled(rows, out, clubs', players')
  {
  }

  /** The files done so far stay relabelled when the next file's labels are added. */
  lemma FilesRelabelled(files: seq<seq<Record>>, out: seq<seq<Anonymised>>, rows: seq<Anonymised>,
                        clubs: map<Option<string>, string>, players: map<string, string>,
                        clubs': map<Option<string>, string>, players': map<string, string>)
    requires |out| < |files|
    requires forall g :: 0 <= g < |out| ==> Relabelled(files[g], out[g], clubs, players)
    requires Extends(clubs, clubs') && Extends(players, players')
    requires Relabelled(files[|out|], rows, clubs', players')
    ensures forall g :: 0 <= g <= |out| ==> Relabelled(files[g], (out + [rows])[g], clubs', players')
  {
    forall g | 0 <= g < |out| ensures Relabelled(files[g], (out + [rows])[g], clubs', players') {
      RelabelledExtends(files[g], out[g], clubs, players, clubs', players');
    }
  }

  /** One file: label its clubs, then its players, then map both columns. */
  method AnonymiseFile(clubs: Labeller<Option<string>>, players: Labeller<string>, rows: seq<Record>) returns (out: seq<Anonymised>)
    requires clubs.Valid() && players.Valid()
    modifies clubs, players
    ensures clubs.Valid() && players.Valid()
    ensures clubs.order == old(clubs.order) + NewNames(old(clubs.order), ClubColumn(rows))
    ensures players.order == old(players.order) + NewNames(old(players.order), NameColumn(rows))
    ensures Extends(old(clubs.table), clubs.table) && Extends(old(players.table), players.table)
    ensures Relabelled(rows, out, clubs.table, players.table)
  {
    clubs.LabelAll(ClubColumn(rows));
    players.LabelAll(NameColumn(rows));
    var ct, pt := clubs.table, players.table;
    forall r | r in rows ensures r.club in ct && r.name in pt {
      var i :| 0 <= i < |rows| && rows[i] == r;
      assert ClubColumn(rows)[i] == r.club && NameColumn(rows)[i] == r.name;
    }
    out := seq(|rows|, i requires 0 <= i < |rows| => Anon(rows[i], ct, pt));
  }

  function AllClubs(files: seq<seq<Record>>): seq<Option<string>>
  {
    if files == [] then [] else AllClubs(files[..|files| - 1]) + ClubColumn(files[|files| - 1])
  }

  function AllNames(files: seq<seq<Record>>): seq<string>
  {
    if files == [] then [] else AllNames(files[..|files| - 1]) + NameColumn(files[|files| - 1])
  }

  /** Labelling one more file appends its new clubs and names to the order. */
  lemma OrderStep(files: seq<seq<Record>>, f: nat)
    requires f < |files|
    ensures NewNames([], AllClubs(files[..f + 1]))
      == NewNames([], AllClubs(files[..f])) + NewNames(NewNames([], AllClubs(files[..f])), ClubColumn(files[f]))
    ensures NewNames([], AllNames(files[..f + 1]))
      == NewNames([], AllNames(files[..f])) + NewNames(NewNames([], AllNames(files[..f])), NameColumn(files[f]))
  {
    assert files[..f + 1][..f] == files[..f];
    var cs, ns := AllClubs(files[..f]), AllNames(files[..f]);
    assert AllClubs(files[..f + 1]) == cs + ClubColumn(files[f]);
    assert AllNames(files[..f + 1]) == ns + NameColumn(files[f]);
    NewNamesAppend([], cs, ClubColumn(files[f]));
    NewNamesAppend([], ns, NameColumn(files[f]));
    assert [] + NewNames([], cs) == NewNames([], cs);
    assert [] + NewNames([], ns) == NewNames([], ns);
  }

  /** The file loop. Every club and player of every file is replaced by the label the
      final dicts give it, so a name keeps its label across files; the labels are numbered
      in order of first appearance over all files. */
  method AnonymiseAll(files: seq<seq<Record>>) returns (out: seq<seq<Anonymised>>, clubs: Labeller<Option<string>>, players: Labeller<string>)
    ensures clubs.Valid() && players.Valid() && clubs.prefix == "Club" && players.prefix == "Player"
    ensures clubs.order == NewNames([], AllClubs(files)) && players.order == NewNames([], AllNames(files))
    ensures |out| == |files|
    ensures forall f :: 0 <= f < |files| ==> Relabelled(files[f], out[f], clubs.table, players.table)
  {
    clubs := new Labeller("Club");
    players := new Labeller("Player");
    out := [];
    for f := 0 to |files|
      invariant clubs.Valid() && players.Valid() && clubs.prefix == "Club" && players.prefix == "Player"
      invariant clubs.order == NewNames([], AllClubs(files[..f])) && players.order == NewNames([], AllNames(files[..f]))
      invariant |out| == f
      invariant forall g :: 0 <= g < f ==> Relabelled(files[g], out[g], clubs.table, players.table)
    {
      var ct, pt := clubs.table, players.table;
      var rows := AnonymiseFile(clubs, players, files[f]);
      FilesRelabelled(files, out, rows, ct, pt, clubs.table, players.table);
      out := out + [rows];
      OrderStep(files, f);
    }
    assert files[..|files|] == files;
  }
}
