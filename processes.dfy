/** The `processo` table of db.py and the yearly numbering of
    `criar_processo`: each new process is numbered `QT<year>-<n>`, where `n`
    is one more than the largest sequence number already issued under that
    year's prefix. The clock is a parameter: the current year and the
    opening time of the row. */
module Processes {
  import opened Text

  /** One row of `processo`: its id, number, description and opening time. */
  datatype Process = Process(id: nat, numero: string, descricao: string, dataAbertura: int)

  /** `f"QT{ano}-"` */
  function YearPrefix(year: nat): string {
    "QT" + NatToString(year) + "-"
  }

  /** `numero LIKE prefixo || '%'`: SQLite's `LIKE` ignores the case of
      ASCII letters. */
  predicate LikePrefix(numero: string, prefix: string) {
    prefix == [] || (numero != [] && LowerChar(numero[0]) == LowerChar(prefix[0]) && LikePrefix(numero[1..], prefix[1..]))
  }

  /** Every text matches the pattern made of its own beginning. */
  lemma {:induction false} LikeOwnPrefix(prefix: string, rest: string)
    ensures LikePrefix(prefix + rest, prefix)
  {
    if prefix != [] {
      LikeOwnPrefix(prefix[1..], rest);
      assert (prefix + rest)[1..] == prefix[1..] + rest;
    }
  }

  /** `CAST(SUBSTR(numero, 8) AS INTEGER)`, read as the digits that start the
      text from the eighth character on. */
  function SeqOf(numero: string): nat {
    LeadingNat(if |numero| >= 7 then numero[7..] else "")
  }

  /** `MAX(...) ... WHERE numero LIKE :prefixo`, with `max_seq or 0`: the
      largest sequence number among the rows under the prefix, 0 when there
      is none. */
  function MaxSeq(rows: seq<Process>, prefix: string): (m: nat)
    ensures forall i | 0 <= i < |rows| && LikePrefix(rows[i].numero, prefix) :: SeqOf(rows[i].numero) <= m
    ensures m == 0 || exists i | 0 <= i < |rows| :: LikePrefix(rows[i].numero, prefix) && SeqOf(rows[i].numero) == m
  {
    if rows == [] then 0
    else
      var init := rows[..|rows| - 1];
      var last := rows[|rows| - 1];
      var before := MaxSeq(init, prefix);
      assert forall i | 0 <= i < |init| :: init[i] == rows[i];
      if LikePrefix(last.numero, prefix) && SeqOf(last.numero) > before then SeqOf(last.numero) else before
  }

  /** The number `criar_processo` issues next in the given year. */
  function NextNumber(rows: seq<Process>, year: nat): (n: string)
    ensures YearPrefix(year) < n
  {
    YearPrefix(year) + NatToString(MaxSeq(rows, YearPrefix(year)) + 1)
  }

  /** The `processo` table. Ids are issued by `AUTOINCREMENT` and nothing is
      deleted, so the row with id `k` sits at position `k - 1`. */
  class ProcessTable {
    var rows: seq<Process>

    ghost predicate Valid()
      reads this
    {
      forall i | 0 <= i < |rows| :: rows[i].id == i + 1
    }

    constructor ()
      ensures rows == [] && Valid()
    {
      rows := [];
    }

    /** `criar_processo(descricao)`: inserts exactly one row, numbered after
        the largest sequence number of the year, and returns its id and
        number. */
    method CreateProcess(descricao: string, year: nat, now: int) returns (id: nat, numero: string)
      requires Valid()
      modifies this
      ensures Valid()
      ensures id == |old(rows)| + 1
      ensures numero == NextNumber(old(rows), year)
      ensures rows == old(rows) + [Process(id, numero, descricao, now)]
    {
      var prefix := YearPrefix(year);
      var maxSeq := MaxSeq(rows, prefix);
      numero := prefix + NatToString(maxSeq + 1);
      id := |rows| + 1;
      rows := rows + [Process(id, numero, descricao, now)];
    }
  }

  /** A four-digit year is written with four digits, so the prefix is seven
      characters long and the sequence number starts at the eighth. */
  lemma {:induction false} YearPrefixLength(year: nat)
    requires 1000 <= year <= 9999
    ensures |YearPrefix(year)| == 7
  {
    assert NatToString(year) == NatToString(year / 10) + [DigitChar(year % 10)];
    assert NatToString(year / 10) == NatToString(year / 100) + [DigitChar(year / 10 % 10)];
    assert NatToString(year / 100) == NatToString(year / 1000) + [DigitChar(year / 100 % 10)];
    assert |NatToString(year / 1000)| == 1;
  }

  /** A number issued under the prefix matches the prefix and carries the
      sequence number it was issued with. */
  lemma IssuedNumber(year: nat, n: nat)
    requires 1000 <= year <= 9999
    ensures var numero := YearPrefix(year) + NatToString(n);
      LikePrefix(numero, YearPrefix(year)) && SeqOf(numero) == n
  {
    var prefix := YearPrefix(year);
    var numero := prefix + NatToString(n);
    YearPrefixLength(year);
    assert numero[7..] == NatToString(n);
    LeadingNatOfNatToString(n);
    LikeOwnPrefix(prefix, NatToString(n));
  }

  /** The new number differs from every number already in the table, in any
      year. */
  lemma NextNumberIsFresh(rows: seq<Process>, year: nat)
    requires 1000 <= year <= 9999
    ensures forall i | 0 <= i < |rows| :: rows[i].numero != NextNumber(rows, year)
  {
    var m := MaxSeq(rows, YearPrefix(year));
    IssuedNumber(year, m + 1);
  }

  /** Only numbers under the year's prefix count: a row of another year, or
      any row that does not match the prefix, leaves the next number as it
      was. */
  lemma OtherPrefixIgnored(rows: seq<Process>, row: Process, year: nat)
    requires !LikePrefix(row.numero, YearPrefix(year))
    ensures NextNumber(rows + [row], year) == NextNumber(rows, year)
  {
    MaxSeqSnoc(rows, row, YearPrefix(year));
  }

  lemma MaxSeqSnoc(rows: seq<Process>, row: Process, prefix: string)
    ensures MaxSeq(rows + [row], prefix) ==
      if LikePrefix(row.numero, prefix) && SeqOf(row.numero) > MaxSeq(rows, prefix) then SeqOf(row.numero) else MaxSeq(rows, prefix)
  {
    assert (rows + [row])[..|rows|] == rows;
  }

  /** The next number falls under the year's prefix and carries one more
      than the largest sequence number issued so far. */
  lemma NextNumberSeq(rows: seq<Process>, year: nat)
    requires 1000 <= year <= 9999
    ensures LikePrefix(NextNumber(rows, year), YearPrefix(year))
    ensures SeqOf(NextNumber(rows, year)) == MaxSeq(rows, YearPrefix(year)) + 1
  {
    IssuedNumber(year, MaxSeq(rows, YearPrefix(year)) + 1);
  }

  /** Two calls in the same year issue consecutive sequence numbers, the
      first one more than the largest already issued. */
  lemma ConsecutiveNumbers(rows: seq<Process>, descricao: string, year: nat, now: int)
    requires 1000 <= year <= 9999
    ensures var first := Process(|rows| + 1, NextNumber(rows, year), descricao, now);
      SeqOf(NextNumber(rows + [first], year)) == SeqOf(NextNumber(rows, year)) + 1
  {
    var prefix := YearPrefix(year);
    var first := Process(|rows| + 1, NextNumber(rows, year), descricao, now);
    NextNumberSeq(rows, year);
    MaxSeqSnoc(rows, first, prefix);
    NextNumberSeq(rows + [first], year);
  }
}
