/** The PSLX row decoder (pslx_reader): a tab-split row becomes a PslxLine
    of eighteen typed scalars and five comma-separated lists, and the
    reader hands out decoded rows until the rows run out or one is empty. */
module Pslx {
  import opened Errors
  import opened Seqs

  // ---------------------------------------------------------------------
  // int(): decimal digits with an optional sign.

  predicate IsDigit(c: char)
  {
    '0' <= c <= '9'
  }

  predicate IsDigits(s: string)
  {
    |s| > 0 && forall i :: 0 <= i < |s| ==> IsDigit(s[i])
  }

  /** The value of a run of decimal digits, most significant first. */
  function DigitsValue(s: string): (n: nat)
    requires IsDigits(s)
  {
    assert IsDigit(s[|s| - 1]);
    var d := s[|s| - 1] as int - '0' as int;
    if |s| == 1 then d else DigitsValue(s[..|s| - 1]) * 10 + d
  }

  /** int(s) on a decimal string: an optional sign, then at least one digit;
      anything else is a ValueError. */
  function ParseInt(s: string): (r: Result<int>)
    ensures r.Ok? ==> |s| > 0 && IsDigit(s[|s| - 1])
    ensures r.Ok? && r.value < 0 ==> s[0] == '-'
    ensures r.Err? ==> r == Err(ValueError)
    ensures r.Ok? <==> IsDigits(s) || (|s| > 1 && (s[0] == '-' || s[0] == '+') && IsDigits(s[1..]))
  {
    if |s| > 0 && (s[0] == '-' || s[0] == '+') then
      if IsDigits(s[1..]) then
        var n: int := DigitsValue(s[1..]);
        Ok(if s[0] == '-' then -n else n)
      else Err(ValueError)
    else if IsDigits(s) then Ok(DigitsValue(s))
    else Err(ValueError)
  }

  /** The value int() gives a digit run, bare or after either sign. */
  lemma ParseSigned(d: string)
    requires IsDigits(d)
    ensures ParseInt(d) == Ok(DigitsValue(d))
    ensures ParseInt("+" + d) == Ok(DigitsValue(d))
    ensures ParseInt("-" + d) == Ok(-(DigitsValue(d) as int))
  {
    assert ("+" + d)[1..] == d;
    assert ("-" + d)[1..] == d;
  }

  /** Text that is not a sign and digits is refused; leading zeros and a
      plus sign are read as int() reads them. */
  lemma ParseExamples()
    ensures ParseInt("007") == Ok(7) && ParseInt("+7") == Ok(7) && ParseInt("-0") == Ok(0)
    ensures ParseInt("12.5").Err? && ParseInt("1a2").Err? && ParseInt("+-5").Err?
    ensures ParseInt("").Err? && ParseInt("-").Err? && ParseInt("7-").Err?
  {
    assert !IsDigit("12.5"[2]);
    assert !IsDigit("1a2"[1]);
    assert !IsDigit("+-5"[1..][0]);
    assert !IsDigit("7-"[1]);
    assert "+7"[1..] == "7";
    assert "-0"[1..] == "0";
    assert "007"[..2] == "00" && "00"[..1] == "0";
  }

  function DigitChar(d: nat): char
    requires d < 10
  {
    ('0' as int + d) as char
  }

  /** The decimal digits of `n`, as str() writes them. */
  function ShowNat(n: nat): (s: string)
    ensures |s| > 0
  {
    if n < 10 then [DigitChar(n)] else ShowNat(n / 10) + [DigitChar(n % 10)]
  }

  /** str() of an int: a minus sign for negative values, then the digits. */
  function Show(n: int): (s: string)
    ensures |s| > 0
  {
    if n < 0 then "-" + ShowNat(-n) else ShowNat(n)
  }

  lemma {:induction false} ShowNatDigits(n: nat)
    ensures IsDigits(ShowNat(n)) && DigitsValue(ShowNat(n)) == n
  {
    if n >= 10 {
      ShowNatDigits(n / 10);
      var p := ShowNat(n / 10);
      PrefixOfAppend(p, DigitChar(n % 10));
    }
  }

  /** int(str(n)) == n. */
  lemma ParseShow(n: int)
    ensures ParseInt(Show(n)) == Ok(n)
  {
    var s := Show(n);
    if n < 0 {
      var d := ShowNat(-n);
      ShowNatDigits(-n);
      assert s == ['-'] + d;
      assert s[0] == '-' && s[1..] == d;
    } else {
      ShowNatDigits(n);
      assert IsDigit(s[0]);
    }
  }

  lemma ShowNoComma(n: int)
    ensures ',' !in Show(n) && Show(n) != ""
  {
    ShowNatDigits(if n < 0 then -n else n);
    if n < 0 {
      assert Show(n) == ['-'] + ShowNat(-n);
    }
  }

  // ---------------------------------------------------------------------
  // str.split(',') and as_list.

  /** The position of the first `x` in `s`. */
  function IndexOf<T(==)>(s: seq<T>, x: T): (i: nat)
    requires x in s
    ensures i < |s| && s[i] == x && x !in s[..i]
  {
    if s[0] == x then 0 else 1 + IndexOf(s[1..], x)
  }

  /** s.split(sep): the pieces between separators, empty ones included. */
  function Split<T(==)>(s: seq<T>, sep: T): (parts: seq<seq<T>>)
    ensures |parts| >= 1
    decreases |s|
  {
    if sep in s then
      var i := IndexOf(s, sep);
      [s[..i]] + Split(s[i + 1..], sep)
    else [s]
  }

  /** sep.join(xs). */
  function Join<T>(xs: seq<seq<T>>, sep: T): seq<T>
  {
    if xs == [] then []
    else if |xs| == 1 then xs[0]
    else xs[0] + [sep] + Join(xs[1..], sep)
  }

  /** The parts that are not empty, in order. */
  function NonEmpty<T>(parts: seq<seq<T>>): (r: seq<seq<T>>)
    ensures |r| <= |parts|
  {
    if parts == [] then []
    else (if |parts[0]| == 0 then [] else [parts[0]]) + NonEmpty(parts[1..])
  }

  /** The pieces as_list keeps: the comma-separated pieces that are not empty. */
  function Pieces(s: string): seq<string>
  {
    NonEmpty(Split(s, ','))
  }

  /** as_list(str, s): the non-empty pieces between commas, none of
      which holds a comma. */
  function AsStrList(s: string): (r: seq<string>)
    ensures forall p :: p in r ==> p != "" && ',' !in p
    ensures s == "" ==> r == []
  {
    PiecesShape(s);
    PiecesEmpty();
    Pieces(s)
  }

  /** int() of every piece in order; the first piece that fails fails all. */
  function ParseAll(ps: seq<string>): (r: Result<seq<int>>)
    ensures r.Err? ==> r.error == ValueError
  {
    if ps == [] then Ok([])
    else
      var v :- ParseInt(ps[0]);
      var rest :- ParseAll(ps[1..]);
      Ok([v] + rest)
  }

  /** as_list(int, s): int() of each non-empty piece between commas, in
      order; a piece int() refuses is a ValueError. */
  function AsIntList(s: string): Result<seq<int>>
  {
    ParseAll(Pieces(s))
  }

  lemma AsIntListPieces(s: string)
    ensures AsIntList(s).Ok? <==> forall i :: 0 <= i < |Pieces(s)| ==> ParseInt(Pieces(s)[i]).Ok?
    ensures AsIntList(s).Ok? ==> |AsIntList(s).value| == |Pieces(s)|
    ensures AsIntList(s).Ok? ==> forall i :: 0 <= i < |Pieces(s)| ==> ParseInt(Pieces(s)[i]) == Ok(AsIntList(s).value[i])
    ensures AsIntList(s).Err? ==> AsIntList(s) == Err(ValueError)
  {
    ParseAllOk(Pieces(s));
  }

  lemma IndexOfUnique<T>(s: seq<T>, x: T, i: nat)
    requires i < |s| && s[i] == x && x !in s[..i]
    ensures IndexOf(s, x) == i
  {
    var j := IndexOf(s, x);
    assert forall k :: 0 <= k < i ==> s[..i][k] == s[k];
    assert forall k :: 0 <= k < j ==> s[..j][k] == s[k];
  }

  /** The pieces either side of a separator. */
  lemma {:induction false} SplitConcat<T>(s: seq<T>, sep: T, t: seq<T>)
    ensures Split(s + [sep] + t, sep) == Split(s, sep) + Split(t, sep)
    decreases |s|
  {
    var u := s + [sep] + t;
    if sep in s {
      var i := IndexOf(s, sep);
      assert u[..i] == s[..i];
      IndexOfUnique(u, sep, i);
      assert u[i + 1..] == s[i + 1..] + [sep] + t;
      SplitConcat(s[i + 1..], sep, t);
      AppendAssoc([s[..i]], Split(s[i + 1..], sep), Split(t, sep));
    } else {
      assert u[..|s|] == s;
      IndexOfUnique(u, sep, |s|);
      assert u[|s| + 1..] == t;
    }
  }

  lemma {:induction false} NonEmptyAppend<T>(a: seq<seq<T>>, b: seq<seq<T>>)
    ensures NonEmpty(a + b) == NonEmpty(a) + NonEmpty(b)
    decreases |a|
  {
    if a != [] {
      NonEmptyAppend(a[1..], b);
      assert (a + b)[1..] == a[1..] + b;
    } else {
      assert a + b == b;
    }
  }

  /** Pieces either side of a comma: a trailing, leading or doubled comma
      adds nothing. */
  lemma PiecesConcat(s: string, t: string)
    ensures Pieces(s + [','] + t) == Pieces(s) + Pieces(t)
  {
    SplitConcat(s, ',', t);
    NonEmptyAppend(Split(s, ','), Split(t, ','));
  }

  lemma PiecesEmpty()
    ensures Pieces("") == []
  {
  }

  /** Every kept piece is non-empty and free of commas. */
  lemma {:induction false} PiecesShape(s: string)
    ensures forall p :: p in Pieces(s) ==> p != "" && ',' !in p
    decreases |s|
  {
    SplitPartsShape(s, ',');
    NonEmptyKeeps(Split(s, ','));
  }

  lemma {:induction false} SplitPartsShape<T>(s: seq<T>, sep: T)
    ensures forall p :: p in Split(s, sep) ==> sep !in p
    decreases |s|
  {
    if sep in s {
      var i := IndexOf(s, sep);
      SplitPartsShape(s[i + 1..], sep);
    }
  }

  lemma {:induction false} NonEmptyKeeps(parts: seq<string>)
    ensures forall p :: p in NonEmpty(parts) <==> p in parts && p != ""
    decreases |parts|
  {
    if parts != [] {
      NonEmptyKeeps(parts[1..]);
      HeadTail(parts);
    }
  }

  /** Joining comma-free pieces and splitting again gives the pieces back. */
  lemma {:induction false} SplitJoin<T>(xs: seq<seq<T>>, sep: T)
    requires xs != []
    requires forall i :: 0 <= i < |xs| ==> sep !in xs[i]
    ensures Split(Join(xs, sep), sep) == xs
    decreases |xs|
  {
    if |xs| > 1 {
      var rest := xs[1..];
      assert forall i :: 0 <= i < |rest| ==> rest[i] == xs[i + 1];
      SplitJoin(rest, sep);
      var j := Join(rest, sep);
      assert Join(xs, sep) == xs[0] + [sep] + j;
      SplitConcat(xs[0], sep, j);
      assert Split(xs[0], sep) == [xs[0]];
      HeadTail(xs);
    } else {
      assert Join(xs, sep) == xs[0];
      assert Split(xs[0], sep) == [xs[0]];
    }
  }

  lemma {:induction false} NonEmptyAll(xs: seq<string>)
    requires forall i :: 0 <= i < |xs| ==> xs[i] != ""
    ensures NonEmpty(xs) == xs
    decreases |xs|
  {
    if xs != [] {
      NonEmptyAll(xs[1..]);
      HeadTail(xs);
    }
  }

  /** as_list(str, ','.join(xs)) == xs for non-empty, comma-free strings. */
  lemma AsStrListJoin(xs: seq<string>)
    requires forall i :: 0 <= i < |xs| ==> xs[i] != "" && ',' !in xs[i]
    ensures AsStrList(Join(xs, ',')) == xs
  {
    if xs != [] {
      SplitJoin(xs, ',');
      NonEmptyAll(xs);
    }
  }

  /** ParseAll succeeds exactly when every piece is an int, and then gives
      their values in order. */
  lemma {:induction false} ParseAllOk(ps: seq<string>)
    ensures ParseAll(ps).Ok? <==> forall i :: 0 <= i < |ps| ==> ParseInt(ps[i]).Ok?
    ensures ParseAll(ps).Ok? ==> |ParseAll(ps).value| == |ps|
    ensures ParseAll(ps).Ok? ==> forall i :: 0 <= i < |ps| ==> ParseAll(ps).value[i] == ParseInt(ps[i]).value
    ensures ParseAll(ps).Err? ==> ParseAll(ps) == Err(ValueError)
    decreases |ps|
  {
    if ps != [] {
      ParseAllOk(ps[1..]);
      assert forall i :: 1 <= i < |ps| ==> ps[i] == ps[1..][i - 1];
    }
  }

  function ShowAll(xs: seq<int>): (r: seq<string>)
    ensures |r| == |xs|
  {
    if xs == [] then [] else [Show(xs[0])] + ShowAll(xs[1..])
  }

  lemma {:induction false} ShowAllAt(xs: seq<int>, i: nat)
    requires i < |xs|
    ensures ShowAll(xs)[i] == Show(xs[i])
    decreases |xs|
  {
    if i > 0 {
      ShowAllAt(xs[1..], i - 1);
    }
  }

  /** as_list(int, ','.join(map(str, xs))) == xs. */
  lemma AsIntListJoin(xs: seq<int>)
    ensures AsIntList(Join(ShowAll(xs), ',')) == Ok(xs)
  {
    var ss := ShowAll(xs);
    forall i | 0 <= i < |ss|
      ensures ss[i] != "" && ',' !in ss[i] && ParseInt(ss[i]) == Ok(xs[i])
    {
      ShowAllAt(xs, i);
      ShowNoComma(xs[i]);
      ParseShow(xs[i]);
    }
    AsStrListJoin(ss);
    ParseAllOk(ss);
    var v := ParseAll(ss).value;
    assert forall i :: 0 <= i < |xs| ==> v[i] == xs[i];
    assert v == xs;
  }

  // ---------------------------------------------------------------------
  // PslxLine, types and cast.

  datatype FieldType = IntField | StrField

  /** PslxLine.types: eighteen columns, all int but the strand (8), the
      query name (9) and the target name (13), which are str. */
  const Types: seq<FieldType> := [IntField, IntField, IntField, IntField, IntField, IntField, IntField, IntField,
                                  StrField, StrField, IntField, IntField, IntField, StrField,
                                  IntField, IntField, IntField, IntField]

  /** A cast scalar column. */
  datatype Scalar = IntVal(i: int) | StrVal(s: string)

  /** cast(t, v): int() or str() of the column text. */
  function Cast(t: FieldType, v: string): (r: Result<Scalar>)
    ensures r.Ok? ==> (r.value.IntVal? <==> t == IntField)
    ensures t == StrField ==> r == Ok(StrVal(v))
    ensures t == IntField ==> (r.Ok? <==> ParseInt(v).Ok?)
    ensures r.Err? ==> r == Err(ValueError)
  {
    match t
    case IntField => (var n :- ParseInt(v); Ok(IntVal(n)))
    case StrField => Ok(StrVal(v))
  }

  /** One PSLX row. The source's field `match` is named `matches` here. */
  datatype PslxLine = PslxLine(
    matches: int, mismatch: int, repMatch: int, ns: int,
    qGapCount: int, qGapBases: int, tGapCount: int, tGapBases: int,
    strand: string, qName: string, qSize: int, qStart: int, qEnd: int,
    tName: string, tSize: int, tStart: int, tEnd: int, blockCount: int,
    blockSizes: seq<int>, qStarts: seq<int>, tStarts: seq<int>,
    qSeqs: seq<string>, tSeqs: seq<string>)

  function IntOf(v: Scalar): int
  {
    if v.IntVal? then v.i else 0
  }

  function StrOf(v: Scalar): string
  {
    if v.StrVal? then v.s else ""
  }

  /** The eighteen scalar columns of a line, in column order. */
  function ScalarsOf(l: PslxLine): (sc: seq<Scalar>)
    ensures |sc| == |Types|
  {
    [IntVal(l.matches), IntVal(l.mismatch), IntVal(l.repMatch), IntVal(l.ns),
     IntVal(l.qGapCount), IntVal(l.qGapBases), IntVal(l.tGapCount), IntVal(l.tGapBases),
     StrVal(l.strand), StrVal(l.qName), IntVal(l.qSize), IntVal(l.qStart), IntVal(l.qEnd),
     StrVal(l.tName), IntVal(l.tSize), IntVal(l.tStart), IntVal(l.tEnd), IntVal(l.blockCount)]
  }

  /** PslxLine(*scalars, *lists): the positional constructor call. */
  function Assemble(sc: seq<Scalar>, blockSizes: seq<int>, qStarts: seq<int>, tStarts: seq<int>,
                    qSeqs: seq<string>, tSeqs: seq<string>): PslxLine
    requires |sc| == |Types|
  {
    PslxLine(IntOf(sc[0]), IntOf(sc[1]), IntOf(sc[2]), IntOf(sc[3]),
             IntOf(sc[4]), IntOf(sc[5]), IntOf(sc[6]), IntOf(sc[7]),
             StrOf(sc[8]), StrOf(sc[9]), IntOf(sc[10]), IntOf(sc[11]), IntOf(sc[12]),
             StrOf(sc[13]), IntOf(sc[14]), IntOf(sc[15]), IntOf(sc[16]), IntOf(sc[17]),
             blockSizes, qStarts, tStarts, qSeqs, tSeqs)
  }

  /** The field types of PslxLine agree with `types`: the strand, the
      query name and the target name are the str columns. */
  lemma TypesColumns(l: PslxLine)
    ensures |Types| == 18
    ensures forall k :: 0 <= k < |Types| ==> (Types[k] == StrField <==> k == 8 || k == 9 || k == 13)
    ensures forall k :: 0 <= k < |Types| ==> (ScalarsOf(l)[k].IntVal? <==> Types[k] == IntField)
  {
  }

  /** The positional constructor puts the scalars into the fields in
      declaration order. */
  lemma AssembleScalars(l: PslxLine)
    ensures Assemble(ScalarsOf(l), l.blockSizes, l.qStarts, l.tStarts, l.qSeqs, l.tSeqs) == l
  {
  }

  /** The comprehension over enumerate(fields) with the column types
      `ts` still unused: a column with no type left is an IndexError
      (types[i] past the end), a bad int a ValueError, the first failure
      wins. */
  function CastFrom(ts: seq<FieldType>, fields: seq<string>): (r: Result<seq<Scalar>>)
    ensures r.Err? ==> r.error != StopIteration
  {
    if fields == [] then Ok([])
    else if ts == [] then Err(IndexError)
    else
      var v :- Cast(ts[0], fields[0]);
      var rest :- CastFrom(ts[1..], fields[1..]);
      Ok([v] + rest)
  }

  /** line[:-5]: every column but the last five, or none when there are fewer. */
  function ScalarColumns(line: seq<string>): (f: seq<string>)
    ensures |f| == if |line| >= 5 then |line| - 5 else 0
  {
    if |line| >= 5 then line[..|line| - 5] else []
  }

  /** The scalar columns are the row's leading columns. */
  lemma ScalarColumnsAt(line: seq<string>)
    ensures forall k :: 0 <= k < |ScalarColumns(line)| ==> ScalarColumns(line)[k] == line[k]
  {
  }

  /** PslxReader.__next__ on a non-empty row: the scalar casts, then the
      rest of the row. */
  function DecodeLine(line: seq<string>): (r: Result<PslxLine>)
    ensures r.Err? ==> r.error != StopIteration
  {
    var sc :- CastFrom(Types, ScalarColumns(line));
    DecodeRest(line, sc)
  }

  /** The five lists (line[-5] on a row shorter than five is an
      IndexError), then the constructor, which refuses anything but
      eighteen scalars. */
  function DecodeRest(line: seq<string>, sc: seq<Scalar>): (r: Result<PslxLine>)
    ensures r.Err? ==> r.error != StopIteration
  {
    if |line| < 5 then Err(IndexError)
    else
      var n := |line|;
      var blockSizes :- AsIntList(line[n - 5]);
      var qStarts :- AsIntList(line[n - 4]);
      var tStarts :- AsIntList(line[n - 3]);
      if |sc| != |Types| then Err(TypeError)
      else Ok(Assemble(sc, blockSizes, qStarts, tStarts, AsStrList(line[n - 2]), AsStrList(line[n - 1])))
  }

  /** The rest of the row decodes exactly when it has the five list
      columns, the three int lists parse and the casts gave eighteen
      scalars; otherwise the failure is the first of those. */
  lemma RestOk(line: seq<string>, sc: seq<Scalar>)
    ensures DecodeRest(line, sc).Ok? <==>
      |line| >= 5 && AsIntList(line[|line| - 5]).Ok? && AsIntList(line[|line| - 4]).Ok?
      && AsIntList(line[|line| - 3]).Ok? && |sc| == |Types|
  {
  }

  /** The scalar casts succeed exactly when every column has a type and
      casts to it, and then give the cast columns in order; a failure is
      an IndexError or a ValueError. */
  lemma {:induction false} CastFromOk(ts: seq<FieldType>, fields: seq<string>)
    ensures CastFrom(ts, fields).Ok?
        <==> |fields| <= |ts| && forall k :: 0 <= k < |fields| ==> Cast(ts[k], fields[k]).Ok?
    ensures CastFrom(ts, fields).Ok? ==> |CastFrom(ts, fields).value| == |fields|
    ensures CastFrom(ts, fields).Ok? ==> forall k :: 0 <= k < |fields| ==>
        k < |ts| && CastFrom(ts, fields).value[k] == Cast(ts[k], fields[k]).value
    ensures CastFrom(ts, fields).Err? ==> CastFrom(ts, fields).error in {IndexError, ValueError}
    decreases |fields|
  {
    if fields != [] && ts != [] {
      CastFromOk(ts[1..], fields[1..]);
      assert forall k :: 1 <= k < |fields| ==> fields[1..][k - 1] == fields[k];
      assert forall k :: 1 <= k < |ts| ==> ts[1..][k - 1] == ts[k];
    }
  }

  /** Columns past the last type are an IndexError once the columns before them cast. */
  lemma {:induction false} CastFromExtra(ts: seq<FieldType>, fields: seq<string>)
    requires |ts| < |fields|
    requires forall k :: 0 <= k < |ts| ==> Cast(ts[k], fields[k]).Ok?
    ensures CastFrom(ts, fields) == Err(IndexError)
    decreases |ts|
  {
    if ts != [] {
      assert Cast(ts[0], fields[0]).Ok?;
      assert forall k :: 1 <= k < |ts| ==> fields[1..][k - 1] == fields[k] && ts[1..][k - 1] == ts[k];
      CastFromExtra(ts[1..], fields[1..]);
    }
  }

  /** A row the decoder accepts: 23 columns, every int column an int, and
      the three int lists made of ints. */
  predicate WellFormed(line: seq<string>)
  {
    |line| == 23
    && (forall k :: 0 <= k < |Types| && Types[k] == IntField ==> ParseInt(line[k]).Ok?)
    && AsIntList(line[18]).Ok? && AsIntList(line[19]).Ok? && AsIntList(line[20]).Ok?
  }

  lemma CastsOk(line: seq<string>)
    requires |line| >= |Types|
    ensures (forall k :: 0 <= k < |Types| && Types[k] == IntField ==> ParseInt(line[k]).Ok?)
        <==> forall k :: 0 <= k < |Types| ==> Cast(Types[k], line[k]).Ok?
  {
  }

  lemma DecodedWellFormed(line: seq<string>)
    requires DecodeLine(line).Ok?
    ensures WellFormed(line)
  {
    DecodeValue(line, DecodeLine(line).value);
    CastWellFormed(line);
  }

  lemma CastWellFormed(line: seq<string>)
    requires |line| == 23 && CastFrom(Types, line[..18]).Ok?
    requires AsIntList(line[18]).Ok? && AsIntList(line[19]).Ok? && AsIntList(line[20]).Ok?
    ensures WellFormed(line)
  {
    CastFromOk(Types, line[..18]);
    assert forall k :: 0 <= k < 18 ==> line[..18][k] == line[k];
    CastsOk(line);
  }

  lemma WellFormedDecodes(line: seq<string>)
    requires WellFormed(line)
    ensures DecodeLine(line).Ok?
  {
    var f := ScalarColumns(line);
    ScalarColumnsAt(line);
    CastsOk(line);
    CastFromOk(Types, f);
    RestOk(line, CastFrom(Types, f).value);
  }

  /** A row decodes exactly when it is well formed. */
  lemma DecodeOk(line: seq<string>)
    ensures DecodeLine(line).Ok? <==> WellFormed(line)
  {
    if DecodeLine(line).Ok? {
      DecodedWellFormed(line);
    }
    if WellFormed(line) {
      WellFormedDecodes(line);
    }
  }

  /** A row of one to four columns fails at line[-5]. */
  lemma ShortRow(line: seq<string>)
    requires |line| < 5
    ensures DecodeLine(line) == Err(IndexError)
  {
  }

  /** A row of 5 to 22 columns whose casts succeed misses constructor arguments. */
  lemma MissingColumns(line: seq<string>)
    requires 5 <= |line| < 23
    requires forall k :: 0 <= k < |line| - 5 ==> Cast(Types[k], line[k]).Ok?
    requires forall j :: |line| - 5 <= j < |line| - 2 ==> AsIntList(line[j]).Ok?
    ensures DecodeLine(line) == Err(TypeError)
  {
    var f := ScalarColumns(line);
    assert forall k :: 0 <= k < |f| ==> f[k] == line[k];
    CastFromOk(Types, f);
    var n := |line|;
    assert AsIntList(line[n - 5]).Ok? && AsIntList(line[n - 4]).Ok? && AsIntList(line[n - 3]).Ok?;
  }

  /** A row of more than 23 columns whose first eighteen cast runs past types. */
  lemma ExtraColumns(line: seq<string>)
    requires |line| > 23
    requires forall k :: 0 <= k < |Types| ==> Cast(Types[k], line[k]).Ok?
    ensures DecodeLine(line) == Err(IndexError)
  {
    var f := ScalarColumns(line);
    assert forall k :: 0 <= k < |Types| ==> f[k] == line[k];
    CastFromExtra(Types, f);
  }

  /** Its failures are exactly the IndexError, ValueError and TypeError
      above. */
  lemma DecodeErrors(line: seq<string>)
    ensures DecodeLine(line).Err? ==> DecodeLine(line).error in {IndexError, ValueError, TypeError}
  {
    CastFromOk(Types, ScalarColumns(line));
    if |line| >= 5 {
      var n := |line|;
      ParseAllOk(Pieces(line[n - 5]));
      ParseAllOk(Pieces(line[n - 4]));
      ParseAllOk(Pieces(line[n - 3]));
    }
  }

  // ---------------------------------------------------------------------
  // What a decoded line holds.

  /** The scalars cast to the column types, with the matching constructor. */
  predicate Kinds(sc: seq<Scalar>)
  {
    |sc| == |Types| && forall k :: 0 <= k < |sc| ==> (sc[k].IntVal? <==> Types[k] == IntField)
  }

  /** The constructor keeps the eighteen scalars it is given. */
  lemma AssembleKeeps(sc: seq<Scalar>, blockSizes: seq<int>, qStarts: seq<int>, tStarts: seq<int>,
                      qSeqs: seq<string>, tSeqs: seq<string>)
    requires Kinds(sc)
    ensures ScalarsOf(Assemble(sc, blockSizes, qStarts, tStarts, qSeqs, tSeqs)) == sc
  {
    var l := Assemble(sc, blockSizes, qStarts, tStarts, qSeqs, tSeqs);
    assert forall k :: 0 <= k < |sc| ==> ScalarsOf(l)[k] == sc[k];
  }

  /** The scalars of a line have the column types. */
  lemma ScalarsKinds(l: PslxLine)
    ensures Kinds(ScalarsOf(l))
  {
  }

  /** Cast columns have the kinds the column types ask for. */
  lemma {:induction false} CastKinds(fields: seq<string>)
    requires CastFrom(Types, fields).Ok? && |fields| == |Types|
    ensures Kinds(CastFrom(Types, fields).value)
  {
    CastFromOk(Types, fields);
    var sc := CastFrom(Types, fields).value;
    forall k | 0 <= k < |sc|
      ensures sc[k].IntVal? <==> Types[k] == IntField
    {
      assert sc[k] == Cast(Types[k], fields[k]).value;
    }
  }

  /** What a successful decode is made of: the casts of the first eighteen
      columns and the lists of the last five, put through the constructor. */
  lemma DecodeValue(line: seq<string>, l: PslxLine)
    requires DecodeLine(line) == Ok(l)
    ensures |line| == 23 && CastFrom(Types, line[..18]).Ok? && |CastFrom(Types, line[..18]).value| == |Types|
    ensures AsIntList(line[18]).Ok? && AsIntList(line[19]).Ok? && AsIntList(line[20]).Ok?
    ensures l == Assemble(CastFrom(Types, line[..18]).value, AsIntList(line[18]).value, AsIntList(line[19]).value,
                          AsIntList(line[20]).value, AsStrList(line[21]), AsStrList(line[22]))
  {
    CastFromOk(Types, ScalarColumns(line));
    RestOk(line, CastFrom(Types, ScalarColumns(line)).value);
    assert |line| == 23;
    assert ScalarColumns(line) == line[..18];
  }

  /** A decoded line holds column k cast to types[k] for each scalar
      column, and the five lists parsed from the last five columns. */
  lemma DecodeFields(line: seq<string>, l: PslxLine)
    requires DecodeLine(line) == Ok(l)
    ensures |line| == 23 && AsIntList(line[18]).Ok? && AsIntList(line[19]).Ok? && AsIntList(line[20]).Ok?
    ensures forall k :: 0 <= k < |Types| ==> Cast(Types[k], line[k]).Ok? && ScalarsOf(l)[k] == Cast(Types[k], line[k]).value
    ensures l.blockSizes == AsIntList(line[18]).value
    ensures l.qStarts == AsIntList(line[19]).value
    ensures l.tStarts == AsIntList(line[20]).value
    ensures l.qSeqs == AsStrList(line[21])
    ensures l.tSeqs == AsStrList(line[22])
  {
    DecodeValue(line, l);
    AssembledFields(line, l);
  }

  lemma AssembledFields(line: seq<string>, l: PslxLine)
    requires |line| == 23 && CastFrom(Types, line[..18]).Ok? && |CastFrom(Types, line[..18]).value| == |Types|
    requires AsIntList(line[18]).Ok? && AsIntList(line[19]).Ok? && AsIntList(line[20]).Ok?
    requires l == Assemble(CastFrom(Types, line[..18]).value, AsIntList(line[18]).value, AsIntList(line[19]).value,
                           AsIntList(line[20]).value, AsStrList(line[21]), AsStrList(line[22]))
    ensures forall k :: 0 <= k < |Types| ==> Cast(Types[k], line[k]).Ok? && ScalarsOf(l)[k] == Cast(Types[k], line[k]).value
    ensures l.blockSizes == AsIntList(line[18]).value
    ensures l.qStarts == AsIntList(line[19]).value
    ensures l.tStarts == AsIntList(line[20]).value
    ensures l.qSeqs == AsStrList(line[21])
    ensures l.tSeqs == AsStrList(line[22])
  {
    var sc := CastFrom(Types, line[..18]).value;
    CastKinds(line[..18]);
    AssembleKeeps(sc, AsIntList(line[18]).value, AsIntList(line[19]).value, AsIntList(line[20]).value,
                  AsStrList(line[21]), AsStrList(line[22]));
    ScalarColumnsCast(line, sc);
  }

  /** The scalar columns, cast one by one, are the values CastFrom gives. */
  lemma ScalarColumnsCast(line: seq<string>, sc: seq<Scalar>)
    requires |line| == 23 && CastFrom(Types, line[..18]) == Ok(sc) && |sc| == |Types|
    ensures forall k :: 0 <= k < |Types| ==> Cast(Types[k], line[k]).Ok? && sc[k] == Cast(Types[k], line[k]).value
  {
    CastFromOk(Types, line[..18]);
  }

  /** The three columns the worker reads: match (column 0) is int() of its
      text, q_name (column 9) and t_name (column 13) are the text itself. */
  lemma AlignmentFields(line: seq<string>, l: PslxLine)
    requires DecodeLine(line) == Ok(l)
    ensures |line| == 23 && ParseInt(line[0]).Ok? && l.matches == ParseInt(line[0]).value
    ensures l.qName == line[9] && l.tName == line[13]
  {
    DecodeFields(line, l);
    ColumnsRead(line, l);
  }

  lemma ColumnsRead(line: seq<string>, l: PslxLine)
    requires |line| == 23
    requires forall k :: 0 <= k < |Types| ==> Cast(Types[k], line[k]).Ok? && ScalarsOf(l)[k] == Cast(Types[k], line[k]).value
    ensures ParseInt(line[0]).Ok? && l.matches == ParseInt(line[0]).value
    ensures l.qName == line[9] && l.tName == line[13]
  {
    var sc := ScalarsOf(l);
    assert sc[0] == Cast(Types[0], line[0]).value;
    assert sc[9] == Cast(Types[9], line[9]).value;
    assert sc[13] == Cast(Types[13], line[13]).value;
  }

  // ---------------------------------------------------------------------
  // Writing a line back as a row, for the round trip.

  /** str() of a scalar. */
  function ScalarText(v: Scalar): string
  {
    match v
    case IntVal(i) => Show(i)
    case StrVal(s) => s
  }

  function Texts(sc: seq<Scalar>): (r: seq<string>)
    ensures |r| == |sc|
  {
    if sc == [] then [] else [ScalarText(sc[0])] + Texts(sc[1..])
  }

  /** The row a PSLX writer puts out for a line: the scalars as text, the
      lists comma-joined. */
  function Encode(l: PslxLine): (row: seq<string>)
  {
    Texts(ScalarsOf(l))
      + [Join(ShowAll(l.blockSizes), ','), Join(ShowAll(l.qStarts), ','), Join(ShowAll(l.tStarts), ','),
         Join(l.qSeqs, ','), Join(l.tSeqs, ',')]
  }

  /** The lines a row can carry back unchanged: as_list drops empty pieces
      and splits at commas, so the sequence lists must hold neither. */
  predicate Encodable(l: PslxLine)
  {
    (forall i :: 0 <= i < |l.qSeqs| ==> l.qSeqs[i] != "" && ',' !in l.qSeqs[i])
    && (forall i :: 0 <= i < |l.tSeqs| ==> l.tSeqs[i] != "" && ',' !in l.tSeqs[i])
  }

  lemma {:induction false} CastTexts(ts: seq<FieldType>, sc: seq<Scalar>)
    requires |ts| == |sc|
    requires forall k :: 0 <= k < |sc| ==> (sc[k].IntVal? <==> ts[k] == IntField)
    ensures CastFrom(ts, Texts(sc)) == Ok(sc)
    decreases |sc|
  {
    if sc != [] {
      assert forall k :: 1 <= k < |sc| ==> sc[1..][k - 1] == sc[k] && ts[1..][k - 1] == ts[k];
      CastTexts(ts[1..], sc[1..]);
      if sc[0].IntVal? {
        ParseShow(sc[0].i);
      }
      HeadTail(sc);
    }
  }

  /** Once the casts give `sc`, decoding is the rest of the row. */
  lemma DecodeAfterCasts(line: seq<string>, sc: seq<Scalar>)
    requires CastFrom(Types, ScalarColumns(line)) == Ok(sc)
    ensures DecodeLine(line) == DecodeRest(line, sc)
  {
  }

  /** The rest of a row whose lists parse is the constructor call. */
  lemma RestValue(line: seq<string>, sc: seq<Scalar>)
    requires |line| >= 5 && |sc| == |Types|
    requires AsIntList(line[|line| - 5]).Ok? && AsIntList(line[|line| - 4]).Ok? && AsIntList(line[|line| - 3]).Ok?
    ensures DecodeRest(line, sc)
         == Ok(Assemble(sc, AsIntList(line[|line| - 5]).value, AsIntList(line[|line| - 4]).value,
                        AsIntList(line[|line| - 3]).value, AsStrList(line[|line| - 2]), AsStrList(line[|line| - 1])))
  {
  }

  /** Encoding a row and decoding it gives the line back. */
  lemma DecodeEncode(l: PslxLine)
    requires Encodable(l)
    ensures DecodeLine(Encode(l)) == Ok(l)
  {
    var row := Encode(l);
    var sc := ScalarsOf(l);
    ScalarsKinds(l);
    CastTexts(Types, sc);
    assert |row| == 23;
    assert ScalarColumns(row) == Texts(sc);
    DecodeAfterCasts(row, sc);
    assert row[18] == Join(ShowAll(l.blockSizes), ',') && row[19] == Join(ShowAll(l.qStarts), ',')
        && row[20] == Join(ShowAll(l.tStarts), ',') && row[21] == Join(l.qSeqs, ',') && row[22] == Join(l.tSeqs, ',');
    AsIntListJoin(l.blockSizes);
    AsIntListJoin(l.qStarts);
    AsIntListJoin(l.tStarts);
    AsStrListJoin(l.qSeqs);
    AsStrListJoin(l.tSeqs);
    RestValue(row, sc);
    AssembleScalars(l);
  }
}
