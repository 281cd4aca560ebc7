/** The per-row part of `get_blockgroups` in `py/park_distances.py`: the
    census codes of a block-group centroid are rendered as decimal strings,
    the county and tract codes zero-padded to widths 3 and 6, and glued into
    the GEOID; rows are then kept when their padded county code is listed.

    `read_csv` parses the four code columns as integers, so a row holds them
    as natural numbers; `str` and `'{0:0>n}'.format` render them. */
module Census {

  datatype Option<T> = None | Some(value: T)

  /** One row of the census centroid file, as read. */
  datatype CensusRow = CensusRow(statefp: nat, countyfp: nat, tractce: nat, blkgrpce: nat,
                                 latitude: real, longitude: real)

  /** One row after the rewriting: the code columns are strings, and the
      GEOID built from them becomes the index. */
  datatype BlockGroup = BlockGroup(geoid: string, statefp: string, countyfp: string, tractce: string,
                                   blkgrpce: string, latitude: real, longitude: real)

  /** The four numeric codes a GEOID is made of. */
  datatype Codes = Codes(state: nat, county: nat, tract: nat, group: nat)

  predicate IsDigit(c: char)
  {
    '0' <= c <= '9'
  }

  predicate AllDigits(s: string)
  {
    forall i :: 0 <= i < |s| ==> IsDigit(s[i])
  }

  function DigitChar(d: nat): (c: char)
    requires d < 10
    ensures IsDigit(c)
  {
    ('0' as int + d) as char
  }

  function Pow10(k: nat): (r: nat)
    ensures r >= 1
  {
    if k == 0 then 1 else 10 * Pow10(k - 1)
  }

  /** `str(n)` of a non-negative Python int: its decimal digits, most
      significant first, with no leading zero. */
  function Decimal(n: nat): (s: string)
    ensures 1 <= |s| && AllDigits(s)
    ensures s[0] == '0' ==> n == 0
  {
    if n < 10 then [DigitChar(n)] else Decimal(n / 10) + [DigitChar(n % 10)]
  }

  /** The number a string of decimal digits denotes; leading zeros add
      nothing. */
  function ValueOf(s: string): nat
    requires AllDigits(s)
  {
    if s == [] then 0
    else ValueOf(s[..|s| - 1]) * 10 + (s[|s| - 1] as int - '0' as int)
  }

  /** `'{0:F>w}'.format(s)` for a string `s`: right-aligned in a field of `w`
      characters, filled on the left with `F`; a longer string is left as it is. */
  function PadLeft(s: string, width: nat, fill: char): (r: string)
    ensures |r| == if |s| < width then width else |s|
    ensures r[|r| - |s|..] == s
    ensures forall i :: 0 <= i < |r| - |s| ==> r[i] == fill
  {
    if |s| < width then seq(width - |s|, _ => fill) + s else s
  }

  /** `'{0:0>w}'.format(n)` for a non-negative int `n`. */
  function ZeroPad(n: nat, width: nat): (r: string)
    ensures |r| >= width && |r| >= |Decimal(n)|
  {
    PadLeft(Decimal(n), width, '0')
  }

  /** The rewriting of lines 58-62: `str` of the state and block-group codes,
      the county padded to 3 and the tract to 6, and the GEOID as the four
      strings concatenated. */
  function Prepare(row: CensusRow): (r: BlockGroup)
    ensures r.geoid == r.statefp + r.countyfp + r.tractce + r.blkgrpce
    ensures |r.countyfp| >= 3 && |r.tractce| >= 6
    ensures r.latitude == row.latitude && r.longitude == row.longitude
  {
    var state := Decimal(row.statefp);
    var county := ZeroPad(row.countyfp, 3);
    var tract := ZeroPad(row.tractce, 6);
    var group := Decimal(row.blkgrpce);
    BlockGroup(state + county + tract + group, state, county, tract, group, row.latitude, row.longitude)
  }

  /** `get_blockgroups` without the file reading: every row rewritten, then
      only those whose padded county code is in `counties`, in order. */
  function GetBlockGroups(rows: seq<CensusRow>, counties: seq<string>): (r: seq<BlockGroup>)
    ensures |r| <= |rows|
    ensures forall i :: 0 <= i < |r| ==> r[i].countyfp in counties
  {
    if rows == [] then [] else GetBlockGroups(rows[..|rows| - 1], counties) + Kept(rows[|rows| - 1], counties)
  }

  /** What one row contributes: its rewriting, when its county is listed. */
  function Kept(row: CensusRow, counties: seq<string>): (r: seq<BlockGroup>)
    ensures r == [] || r == [Prepare(row)]
    ensures r != [] <==> Prepare(row).countyfp in counties
  {
    var bg := Prepare(row);
    if bg.countyfp in counties then [bg] else []
  }

  /** The codes of a 12-digit GEOID: 2 state digits, 3 county, 6 tract and
      1 block group. */
  function SplitGeoid(g: string): Option<Codes>
  {
    if |g| == 12 && AllDigits(g)
    then Some(Codes(ValueOf(g[..2]), ValueOf(g[2..5]), ValueOf(g[5..11]), ValueOf(g[11..])))
    else None
  }

  /** The codes fit the widths of a GEOID: a two-digit state code, at most
      three county digits, six tract digits and one block-group digit. */
  predicate InRange(row: CensusRow)
  {
    10 <= row.statefp < 100 && row.countyfp < 1000 && row.tractce < 1000000 && row.blkgrpce < 10
  }

  // ---------------------------------------------------------------------
  // Decimal rendering and padding

  /** Reading back the decimal rendering of `n` gives `n`. */
  lemma {:induction false} DecimalRoundTrip(n: nat)
    ensures ValueOf(Decimal(n)) == n
  {
    if n >= 10 {
      var front := Decimal(n / 10);
      DecimalRoundTrip(n / 10);
      assert (front + [DigitChar(n % 10)])[..|front|] == front;
    }
  }

  /** The rendering of `n` has at most `k` digits exactly when `n < 10^k`. */
  lemma {:induction false} DecimalLength(n: nat, k: nat)
    requires k >= 1
    ensures |Decimal(n)| <= k <==> n < Pow10(k)
  {
    if k == 1 {
      if n >= 10 {
        assert |Decimal(n)| == |Decimal(n / 10)| + 1;
      }
    } else if n < 10 {
      assert Pow10(k) == 10 * Pow10(k - 1);
    } else {
      DecimalLength(n / 10, k - 1);
      assert Pow10(k) == 10 * Pow10(k - 1);
      assert n / 10 < Pow10(k - 1) <==> n < 10 * Pow10(k - 1);
    }
  }

  lemma {:induction false} ValueOfZeros(z: nat)
    ensures AllDigits(seq(z, _ => '0')) && ValueOf(seq(z, _ => '0')) == 0
  {
    if z > 0 {
      ValueOfZeros(z - 1);
      assert seq(z, _ => '0')[..z - 1] == seq(z - 1, _ => '0');
    }
  }

  /** Zeros in front of a digit string do not change the number it denotes. */
  lemma {:induction false} ValueOfLeadingZeros(z: nat, s: string)
    requires AllDigits(s)
    ensures AllDigits(seq(z, _ => '0') + s)
    ensures ValueOf(seq(z, _ => '0') + s) == ValueOf(s)
  {
    var zs: string := seq(z, _ => '0');
    if s == [] {
      assert zs + s == zs;
      ValueOfZeros(z);
    } else {
      var n := |s| - 1;
      ValueOfLeadingZeros(z, s[..n]);
      assert (zs + s)[..|zs + s| - 1] == zs + s[..n];
    }
  }

  /** Zero padding keeps the value: `'{0:0>w}'.format(n)` still reads as `n`,
      and has exactly `w` digits when `n < 10^w`. */
  lemma ZeroPadValue(n: nat, width: nat)
    ensures AllDigits(ZeroPad(n, width)) && ValueOf(ZeroPad(n, width)) == n
    ensures width >= 1 && n < Pow10(width) ==> |ZeroPad(n, width)| == width
  {
    var d := Decimal(n);
    DecimalRoundTrip(n);
    if |d| < width {
      ValueOfLeadingZeros(width - |d|, d);
    }
    if width >= 1 {
      DecimalLength(n, width);
    }
  }

  lemma {:induction false} ValueOfPositive(s: string)
    requires 1 <= |s| && AllDigits(s) && s[0] != '0'
    ensures ValueOf(s) >= 1
  {
    if |s| > 1 {
      ValueOfPositive(s[..|s| - 1]);
    }
  }

  /** A digit string without a leading zero is the rendering of the number
      it denotes: `str(int(s)) == s`. */
  lemma {:induction false} DecimalOfValue(s: string)
    requires 1 <= |s| && AllDigits(s)
    requires s[0] != '0' || |s| == 1
    ensures Decimal(ValueOf(s)) == s
  {
    var n := |s| - 1;
    if n == 0 {
      assert DigitChar(ValueOf(s)) == s[0];
    } else {
      var front := s[..n];
      ValueOfPositive(front);
      DecimalOfValue(front);
      var v := ValueOf(s);
      assert v / 10 == ValueOf(front) && v % 10 == s[n] as int - '0' as int;
      assert DigitChar(v % 10) == s[n];
      assert s == front + [s[n]];
    }
  }

  /** A digit string of width `w`, leading zeros included, is the zero
      padding to `w` of the number it denotes: `'{0:0>w}'.format(int(c)) == c`. */
  lemma {:induction false} ZeroPadOfCode(c: string)
    requires 1 <= |c| && AllDigits(c)
    ensures ZeroPad(ValueOf(c), |c|) == c
  {
    if c[0] != '0' || |c| == 1 {
      DecimalOfValue(c);
    } else {
      var t := c[1..];
      assert c == ['0'] + t;
      assert seq(1, _ => '0') == ['0'];
      ValueOfLeadingZeros(1, t);
      ZeroPadOfCode(t);
      PadOneMore(Decimal(ValueOf(t)), |t|);
    }
  }

  /** Widening the field by one adds one fill character in front. */
  lemma PadOneMore(s: string, width: nat)
    requires |s| <= width
    ensures PadLeft(s, width + 1, '0') == ['0'] + PadLeft(s, width, '0')
  {
    var zs := seq(width - |s|, _ => '0');
    assert seq(width + 1 - |s|, _ => '0') == ['0'] + zs;
    AppendAssoc(['0'], zs, s);
  }



  /** Zero padding to a common width is injective on numbers. */
  lemma ZeroPadInjective(a: nat, b: nat, width: nat)
    requires ZeroPad(a, width) == ZeroPad(b, width)
    ensures a == b
  {
    ZeroPadValue(a, width);
    ZeroPadValue(b, width);
  }

  // ---------------------------------------------------------------------
  // The GEOID

  /** For codes within the census widths the GEOID is 12 digits and splits
      back into exactly those codes. */
  lemma GeoidRoundTrip(row: CensusRow)
    requires InRange(row)
    ensures SplitGeoid(Prepare(row).geoid)
         == Some(Codes(row.statefp, row.countyfp, row.tractce, row.blkgrpce))
  {
    var bg := Prepare(row);
    PreparedCodes(row);
    SplitFour(bg.statefp, bg.countyfp, bg.tractce, bg.blkgrpce);
  }

  /** Within the census widths each rewritten code has its field's width,
      is all digits and denotes the code. */
  lemma PreparedCodes(row: CensusRow)
    requires InRange(row)
    ensures var bg := Prepare(row);
      && |bg.statefp| == 2 && |bg.countyfp| == 3 && |bg.tractce| == 6 && |bg.blkgrpce| == 1
      && AllDigits(bg.statefp) && AllDigits(bg.countyfp) && AllDigits(bg.tractce) && AllDigits(bg.blkgrpce)
      && ValueOf(bg.statefp) == row.statefp && ValueOf(bg.countyfp) == row.countyfp
      && ValueOf(bg.tractce) == row.tractce && ValueOf(bg.blkgrpce) == row.blkgrpce
  {
    DecimalCode(row.statefp, 2);
    ZeroPadValue(row.countyfp, 3);
    ZeroPadValue(row.tractce, 6);
    DecimalCode(row.blkgrpce, 1);
  }

  /** A code with exactly `k` decimal digits renders as `k` digits that read
      back as the code. */
  lemma DecimalCode(n: nat, k: nat)
    requires 1 <= k && n < Pow10(k) && (k == 1 || Pow10(k - 1) <= n)
    ensures |Decimal(n)| == k && AllDigits(Decimal(n)) && ValueOf(Decimal(n)) == n
  {
    DecimalRoundTrip(n);
    DecimalLength(n, k);
    if k > 1 {
      DecimalLength(n, k - 1);
    }
  }

  lemma SplitFour(state: string, county: string, tract: string, group: string)
    requires |state| == 2 && |county| == 3 && |tract| == 6 && |group| == 1
    requires AllDigits(state) && AllDigits(county) && AllDigits(tract) && AllDigits(group)
    ensures SplitGeoid(state + county + tract + group)
         == Some(Codes(ValueOf(state), ValueOf(county), ValueOf(tract), ValueOf(group)))
  {
    Slices4(state, county, tract, group);
    AllDigitsConcat(state, county);
    AllDigitsConcat(state + county, tract);
    AllDigitsConcat(state + county + tract, group);
  }

  /** The four parts of a concatenation are its slices at the part boundaries. */
  lemma Slices4<T>(a: seq<T>, b: seq<T>, c: seq<T>, d: seq<T>)
    ensures var g := a + b + c + d;
      && g[..|a|] == a && g[|a|..|a| + |b|] == b
      && g[|a| + |b|..|a| + |b| + |c|] == c && g[|a| + |b| + |c|..] == d
  {
    var g := a + b + c + d;
    assert g[..|a|] == a;
    assert g[|a|..|a| + |b|] == b;
    assert g[|a| + |b|..|a| + |b| + |c|] == c;
    assert g[|a| + |b| + |c|..] == d;
  }

  lemma AllDigitsConcat(x: string, y: string)
    requires AllDigits(x) && AllDigits(y)
    ensures AllDigits(x + y)
  {
    forall i | 0 <= i < |x + y|
      ensures IsDigit((x + y)[i])
    {
      if i >= |x| {
        assert (x + y)[i] == y[i - |x|];
      }
    }
  }


  /** Two rows within the census widths share a GEOID only when they have
      the same four codes. */
  lemma GeoidInjective(a: CensusRow, b: CensusRow)
    requires InRange(a) && InRange(b)
    requires Prepare(a).geoid == Prepare(b).geoid
    ensures a.statefp == b.statefp && a.countyfp == b.countyfp
    ensures a.tractce == b.tractce && a.blkgrpce == b.blkgrpce
  {
    GeoidRoundTrip(a);
    GeoidRoundTrip(b);
  }

  /** The state code is not padded: a one-digit state code gives an
      11-character GEOID. */
  lemma ShortStateGeoid(row: CensusRow)
    requires row.statefp < 10 && row.countyfp < 1000 && row.tractce < 1000000 && row.blkgrpce < 10
    ensures |Prepare(row).geoid| == 11
  {
    var bg := Prepare(row);
    DecimalRoundTrip(row.statefp);
    DecimalRoundTrip(row.blkgrpce);
    ZeroPadValue(row.countyfp, 3);
    ZeroPadValue(row.tractce, 6);
    DecimalLength(row.statefp, 1);
    DecimalLength(row.blkgrpce, 1);
    ZeroPadValue(row.countyfp, 3);
    ZeroPadValue(row.tractce, 6);
    assert |bg.statefp| == 1 && |bg.countyfp| == 3 && |bg.tractce| == 6 && |bg.blkgrpce| == 1;
  }

  // ---------------------------------------------------------------------
  // The county filter

  /** With the county list written as 3-digit codes, a row's county passes
      the filter exactly when its number is the value of a listed code. */
  lemma CountyListed(row: CensusRow, counties: seq<string>)
    requires forall c :: c in counties ==> |c| == 3 && AllDigits(c)
    ensures Prepare(row).countyfp in counties <==> exists c :: c in counties && ValueOf(c) == row.countyfp
  {
    var padded := ZeroPad(row.countyfp, 3);
    ZeroPadValue(row.countyfp, 3);
    if padded in counties {
      assert ValueOf(padded) == row.countyfp;
    }
    if c :| c in counties && ValueOf(c) == row.countyfp {
      ZeroPadOfCode(c);
    }
  }

  /** A block group is in the result exactly when it is the rewriting of an
      input row whose padded county code is listed. */
  lemma {:induction false} GetBlockGroupsMembers(rows: seq<CensusRow>, counties: seq<string>, bg: BlockGroup)
    ensures bg in GetBlockGroups(rows, counties)
        <==> exists row :: row in rows && bg == Prepare(row) && bg.countyfp in counties
  {
    if rows != [] {
      var n := |rows| - 1;
      var front, last := rows[..n], rows[n];
      assert rows == front + [last];
      GetBlockGroupsSnoc(front, last, counties);
      GetBlockGroupsMembers(front, counties, bg);
      if bg in GetBlockGroups(rows, counties) {
        if bg !in GetBlockGroups(front, counties) {
          assert bg in Kept(last, counties);
          assert last in rows;
        } else {
          var row :| row in front && bg == Prepare(row) && bg.countyfp in counties;
          assert row in rows;
        }
      } else {
        forall row | row in rows && bg == Prepare(row)
          ensures bg.countyfp !in counties
        {
          if row != last {
            assert row in front;
          }
        }
      }
    }
  }

  lemma GetBlockGroupsSnoc(rows: seq<CensusRow>, row: CensusRow, counties: seq<string>)
    ensures GetBlockGroups(rows + [row], counties) == GetBlockGroups(rows, counties) + Kept(row, counties)
  {
    assert (rows + [row])[..|rows|] == rows;
  }

  /** The filter works row by row: on a concatenation it is the
      concatenation of the results, so the input order is kept. */
  lemma {:induction false} GetBlockGroupsAppend(a: seq<CensusRow>, b: seq<CensusRow>, counties: seq<string>)
    ensures GetBlockGroups(a + b, counties) == GetBlockGroups(a, counties) + GetBlockGroups(b, counties)
  {
    if b == [] {
      assert a + b == a;
    } else {
      var n := |b| - 1;
      var front, last := b[..n], b[n];
      assert b == front + [last];
      assert a + b == (a + front) + [last];
      GetBlockGroupsAppend(a, front, counties);
      GetBlockGroupsSnoc(a + front, last, counties);
      GetBlockGroupsSnoc(front, last, counties);
      AppendAssoc(GetBlockGroups(a, counties), GetBlockGroups(front, counties), Kept(last, counties));
    }
  }

  lemma AppendAssoc<T>(x: seq<T>, y: seq<T>, z: seq<T>)
    ensures (x + y) + z == x + (y + z)
  {
  }


}
