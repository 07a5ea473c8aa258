/** The grammars an image's identifiers and tables have to meet before it is accepted. */
module ImageChecks {
  import opened Primitives
  import Text
  import opened ImageText

  predicate IsWordStart(c: char) { Text.IsLetter(c) || c == '_' }

  predicate IsWordChar(c: char) { IsWordStart(c) || '0' <= c <= '9' }

  /** What a table's or an image's identifier may be. */
  predicate IsWord(text: string)
  {
    text != "" && IsWordStart(text[0]) && forall c <- text[1..] :: IsWordChar(c)
  }

  /** One or more words between colons. */
  predicate IsPropertyId(id: string)
  {
    id != "" && forall segment <- Text.Split(id, ':') :: IsWord(segment)
  }

  /** The canonical form of a version 4 UUID: groups of 8, 4, 4, 4 and 12 hexadecimal digits. */
  predicate IsUuid(uuid: string)
  {
    var groups := Text.Split(uuid, '-');
    |groups| == 5 && |groups[0]| == 8 && |groups[1]| == 4 && |groups[2]| == 4 && |groups[3]| == 4 && |groups[4]| == 12
    && (forall group <- groups :: forall c <- group :: Text.DigitValue(c).Some?) && groups[2][0] == '4'
  }

  predicate IsFitsName(name: string)
  {
    |name| <= 8 && forall c <- name :: '0' <= c <= '9' || 'A' <= c <= 'Z' || c == '_' || c == '-'
  }

  predicate InHeader(cells: seq<Cell>)
  {
    forall c <- cells :: !c.inBlock
  }

  /** Why the first faulty row is refused, if there is one. */
  function RowsFault(rows: seq<seq<Cell>>, width: nat): Option<ErrorKind>
  {
    if rows == [] then None
    else if |rows[0]| != width then Some(InvalidArgument)
    else if !InHeader(rows[0]) then Some(Unsupported)
    else RowsFault(rows[1..], width)
  }

  function TableFault(t: Table): Option<ErrorKind>
  {
    if !IsPropertyId(t.id) || t.fields == [] || (exists f <- t.fields :: !IsPropertyId(f.id)) then Some(InvalidArgument)
    else RowsFault(t.rows, |t.fields|)
  }

  /** Why the first faulty table is refused, if there is one. */
  function TablesFault(tables: seq<Table>): Option<ErrorKind>
  {
    if tables == [] then None
    else if TableFault(tables[0]).Some? then TableFault(tables[0])
    else TablesFault(tables[1..])
  }

  /** Identifiers that can be found, and a rectangle of cells with their values in the header. */
  ghost predicate IsRectangular(t: Table)
  {
    IsPropertyId(t.id) && t.fields != [] && (forall f <- t.fields :: IsPropertyId(f.id))
    && forall row <- t.rows :: |row| == |t.fields| && InHeader(row)
  }

  lemma {:induction false} RowsAcceptedExactly(rows: seq<seq<Cell>>, width: nat)
    ensures RowsFault(rows, width) == None <==> forall row <- rows :: |row| == width && InHeader(row)
  {
    if rows != [] {
      RowsAcceptedExactly(rows[1..], width);
      assert forall row :: row in rows <==> row == rows[0] || row in rows[1..];
    }
  }

  lemma {:induction false} TableAcceptedExactly(t: Table)
    ensures TableFault(t) == None <==> IsRectangular(t)
  {
    hide IsPropertyId;
    RowsAcceptedExactly(t.rows, |t.fields|);
  }

  /** Tables are accepted exactly when every one of them is rectangular. */
  lemma {:induction false} TablesAcceptedExactly(tables: seq<Table>)
    ensures TablesFault(tables) == None <==> forall t <- tables :: IsRectangular(t)
  {
    if tables != [] {
      hide TableFault;
      hide IsRectangular;
      TablesAcceptedExactly(tables[1..]);
      TableAcceptedExactly(tables[0]);
      assert forall t :: t in tables <==> t == tables[0] || t in tables[1..];
    }
  }

  method CheckTable(t: Table) returns (fault: Option<ErrorKind>)
    ensures fault == TableFault(t)
  {
    if !IsPropertyId(t.id) {
      return Some(InvalidArgument);
    }
    if t.fields == [] {
      return Some(InvalidArgument);
    }
    for i := 0 to |t.fields|
      invariant forall k :: 0 <= k < i ==> IsPropertyId(t.fields[k].id)
    {
      if !IsPropertyId(t.fields[i].id) {
        return Some(InvalidArgument);
      }
    }
    assert t.rows[0..] == t.rows;
    for n := 0 to |t.rows|
      invariant RowsFault(t.rows, |t.fields|) == RowsFault(t.rows[n..], |t.fields|)
    {
      assert t.rows[n..][1..] == t.rows[n + 1..];
      if |t.rows[n]| != |t.fields| {
        return Some(InvalidArgument);
      }
      for c := 0 to |t.rows[n]|
        invariant forall k :: 0 <= k < c ==> !t.rows[n][k].inBlock
      {
        if t.rows[n][c].inBlock {
          return Some(Unsupported);
        }
      }
    }
    return None;
  }

  // -------------------------------------------------- the grammars, spelled out

  /** A property identifier is one or more words with colons between them. */
  lemma {:induction false} PropertyIdExactly(id: string)
    ensures IsPropertyId(id) <==>
      exists words :: |words| > 0 && id == Text.Join(words, ':') && forall w <- words :: IsWord(w)
  {
    Text.JoinOfSplit(id, ':');
    forall words | |words| > 0 && id == Text.Join(words, ':') && forall w <- words :: IsWord(w)
      ensures IsPropertyId(id)
    {
      forall w | w in words
        ensures ':' !in w
      {
        assert IsWord(w);
        assert w == [w[0]] + w[1..];
      }
      Text.SplitJoin(words, ':');
      assert words[0] in words;
    }
  }

  predicate IsDash(i: nat) { i == 8 || i == 13 || i == 18 || i == 23 }

  /** A UUID has thirty-six characters: dashes at four places, a 4 after the second, and digits everywhere else. */
  predicate IsCanonical(uuid: string)
  {
    |uuid| == 36 && uuid[14] == '4'
    && forall i :: 0 <= i < 36 ==> if IsDash(i) then uuid[i] == '-' else Text.DigitValue(uuid[i]).Some?
  }

  lemma {:induction false} UuidExactly(uuid: string)
    ensures IsUuid(uuid) <==> IsCanonical(uuid)
  {
    Text.JoinOfSplit(uuid, '-');
    if IsUuid(uuid) {
      GroupsAreCanonical(Text.Split(uuid, '-'));
    }
    if IsCanonical(uuid) {
      CanonicalIsSplit(uuid);
    }
  }

  lemma {:induction false} GroupOfDigits(uuid: string, i: nat, j: nat)
    requires IsCanonical(uuid) && i <= j <= 36 && forall k :: i <= k < j ==> !IsDash(k)
    ensures forall c <- uuid[i..j] :: Text.DigitValue(c).Some?
  {
    hide Text.DigitValue;
  }

  lemma {:induction false} CanonicalIsSplit(uuid: string)
    requires IsCanonical(uuid)
    ensures IsUuid(uuid)
  {
    var groups := [uuid[0..8], uuid[9..13], uuid[14..18], uuid[19..23], uuid[24..36]];
    GroupsHoldDigits(uuid, groups);
    assert IsDash(8) && IsDash(13) && IsDash(18) && IsDash(23) && groups[2][0] == '4';
    hide Text.DigitValue;
    hide Text.Join;
    hide IsDash;
    FiveCuts(uuid);
    JoinOfFive(groups, '-');
    SplitOfDigits(groups);
  }

  lemma {:induction false} GroupsHoldDigits(uuid: string, groups: seq<string>)
    requires IsCanonical(uuid)
    requires groups == [uuid[0..8], uuid[9..13], uuid[14..18], uuid[19..23], uuid[24..36]]
    ensures forall group <- groups :: forall c <- group :: Text.DigitValue(c).Some?
  {
    hide Text.DigitValue;
    GroupOfDigits(uuid, 0, 8);
    GroupOfDigits(uuid, 9, 13);
    GroupOfDigits(uuid, 14, 18);
    GroupOfDigits(uuid, 19, 23);
    GroupOfDigits(uuid, 24, 36);
    hide IsCanonical;
  }

  lemma {:induction false} SplitOfDigits(groups: seq<string>)
    requires groups != [] && forall group <- groups :: forall c <- group :: Text.DigitValue(c).Some?
    ensures Text.Split(Text.Join(groups, '-'), '-') == groups
  {
    assert Text.DigitValue('-') == None;
    hide Text.DigitValue;
    Text.SplitJoin(groups, '-');
  }

  lemma {:induction false} FiveCuts(uuid: string)
    requires |uuid| == 36 && uuid[8] == '-' && uuid[13] == '-' && uuid[18] == '-' && uuid[23] == '-'
    ensures uuid == uuid[0..8] + ['-'] + (uuid[9..13] + ['-'] + (uuid[14..18] + ['-']
                    + (uuid[19..23] + ['-'] + uuid[24..36])))
  {
  }

  lemma {:induction false} JoinOfFive(g: seq<string>, c: char)
    requires |g| == 5
    ensures Text.Join(g, c) == g[0] + [c] + (g[1] + [c] + (g[2] + [c] + (g[3] + [c] + g[4])))
  {
    assert g[1..][1..] == g[2..] && g[2..][1..] == g[3..] && g[3..][1..] == g[4..];
    assert Text.Join(g[4..], c) == g[4] && Text.Join(g[3..], c) == g[3] + [c] + Text.Join(g[4..], c);
    assert Text.Join(g[2..], c) == g[2] + [c] + Text.Join(g[3..], c);
    assert Text.Join(g[1..], c) == g[1] + [c] + Text.Join(g[2..], c);
  }

  lemma {:induction false} GroupsAreCanonical(g: seq<string>)
    requires |g| == 5 && |g[0]| == 8 && |g[1]| == 4 && |g[2]| == 4 && |g[3]| == 4 && |g[4]| == 12
    requires (forall group <- g :: forall c <- group :: Text.DigitValue(c).Some?) && g[2][0] == '4'
    ensures IsCanonical(Text.Join(g, '-'))
  {
    JoinOfFive(g, '-');
    var uuid := Text.Join(g, '-');
    forall i | 0 <= i < 36
      ensures if IsDash(i) then uuid[i] == '-' else Text.DigitValue(uuid[i]).Some?
    {
      assert g[0] in g && g[1] in g && g[2] in g && g[3] in g && g[4] in g;
      if i < 8 {
        assert uuid[i] == g[0][i];
      } else if 8 < i < 13 {
        assert uuid[i] == g[1][i - 9];
      } else if 13 < i < 18 {
        assert uuid[i] == g[2][i - 14];
      } else if 18 < i < 23 {
        assert uuid[i] == g[3][i - 19];
      } else if 23 < i {
        assert uuid[i] == g[4][i - 24];
      }
    }
  }
}
