/**
 * The text the server writes to a client: one line per detected shot,
 * `"{x},{y}\n"`, and the `CORNERS:` message built by `send_corners`.
 * Integers are rendered as Python's `str` renders them (an optional `-`,
 * then decimal digits without leading zeros). The parsers here are the
 * client's side of the protocol; the lemmas say that every message the
 * server builds parses back to exactly the numbers it was built from.
 */
module Wire {
  import opened Wrappers

  // ---------------------------------------------------------------------
  // Decimal integers
  // ---------------------------------------------------------------------

  predicate IsDigit(c: char) {
    '0' <= c <= '9'
  }

  function DigitChar(d: nat): (c: char)
    requires d < 10
    ensures IsDigit(c)
  {
    (48 + d) as char
  }

  function DigitValue(c: char): (d: nat)
    requires IsDigit(c)
    ensures d < 10 && DigitChar(d) == c
  {
    c as int - 48
  }

  /** `str(n)` for a non-negative integer. */
  function NatToDecimal(n: nat): (s: string)
    ensures |s| >= 1
    ensures forall i :: 0 <= i < |s| ==> IsDigit(s[i])
    ensures n == 0 ==> s == "0"
    ensures n > 0 ==> s[0] != '0'
    decreases n
  {
    if n < 10 then [DigitChar(n)] else NatToDecimal(n / 10) + [DigitChar(n % 10)]
  }

  /** `str(n)` for any integer: a leading `-` for negatives. */
  function IntToDecimal(n: int): (s: string)
    ensures |s| >= 1
    ensures forall i :: 0 <= i < |s| ==> s[i] != ',' && s[i] != '\n'
    ensures (s[0] == '-') <==> n < 0
  {
    if n < 0 then "-" + NatToDecimal(-n) else NatToDecimal(n)
  }

  /** Reads one or more decimal digits. */
  function ParseNat(s: string): Option<nat>
    decreases |s|
  {
    if |s| == 0 || !IsDigit(s[|s| - 1]) then None
    else if |s| == 1 then Some(DigitValue(s[0]))
    else
      match ParseNat(s[..|s| - 1])
      case None => None
      case Some(v) => Some(v * 10 + DigitValue(s[|s| - 1]))
  }

  /** Reads an optional `-` followed by one or more decimal digits. */
  function ParseInt(s: string): Option<int>
  {
    if |s| > 0 && s[0] == '-' then
      match ParseNat(s[1..])
      case None => None
      case Some(v) => Some(0 - v)
    else
      match ParseNat(s)
      case None => None
      case Some(v) => Some(v)
  }

  lemma {:induction false} NatDecimalRoundTrip(n: nat)
    ensures ParseNat(NatToDecimal(n)) == Some(n)
    decreases n
  {
    if n >= 10 {
      var s := NatToDecimal(n);
      assert s[..|s| - 1] == NatToDecimal(n / 10);
      NatDecimalRoundTrip(n / 10);
    }
  }

  lemma IntDecimalRoundTrip(n: int)
    ensures ParseInt(IntToDecimal(n)) == Some(n)
  {
    var s := IntToDecimal(n);
    if n < 0 {
      assert s[1..] == NatToDecimal(-n);
      NatDecimalRoundTrip(-n);
      assert ParseNat(s[1..]) == Some(-n);
    } else {
      assert s == NatToDecimal(n) && IsDigit(s[0]);
      NatDecimalRoundTrip(n);
    }
  }

  // ---------------------------------------------------------------------
  // Python's sep.join(fields) and s.split(sep)
  // ---------------------------------------------------------------------

  function Join(fields: seq<string>, sep: char): string
  {
    if |fields| == 0 then ""
    else if |fields| == 1 then fields[0]
    else Join(fields[..|fields| - 1], sep) + [sep] + fields[|fields| - 1]
  }

  /** `s.split(sep)`: always at least one field; an empty string gives `[""]`. */
  function Split(s: string, sep: char): (fields: seq<string>)
    ensures |fields| >= 1
    decreases |s|
  {
    if |s| == 0 then [""]
    else
      var init := Split(s[..|s| - 1], sep);
      if s[|s| - 1] == sep then init + [""]
      else init[..|init| - 1] + [init[|init| - 1] + [s[|s| - 1]]]
  }

  predicate FreeOf(s: string, sep: char) {
    forall i :: 0 <= i < |s| ==> s[i] != sep
  }

  /** Appending text without a separator only extends the last field. */
  lemma {:induction false} SplitAppendPlain(p: string, q: string, sep: char)
    requires FreeOf(q, sep)
    ensures var f := Split(p, sep);
            Split(p + q, sep) == f[..|f| - 1] + [f[|f| - 1] + q]
    decreases |q|
  {
    var f := Split(p, sep);
    if |q| == 0 {
      assert p + q == p;
      assert f[|f| - 1] + q == f[|f| - 1];
      assert f[..|f| - 1] + [f[|f| - 1]] == f;
    } else {
      var q' := q[..|q| - 1];
      SplitAppendPlain(p, q', sep);
      assert (p + q)[..|p + q| - 1] == p + q';
      assert (f[|f| - 1] + q') + [q[|q| - 1]] == f[|f| - 1] + q;
    }
  }

  /** A trailing separator opens a new, empty field. */
  lemma SplitSeparator(p: string, sep: char)
    ensures Split(p + [sep], sep) == Split(p, sep) + [""]
  {
    assert (p + [sep])[..|p|] == p;
  }

  lemma JoinSnoc(fields: seq<string>, f: string, sep: char)
    requires |fields| >= 1
    ensures Join(fields + [f], sep) == Join(fields, sep) + [sep] + f
  {
    assert (fields + [f])[..|fields|] == fields;
  }

  /** Splitting a join gives back the fields, when no field holds the separator. */
  lemma {:induction false} SplitJoin(fields: seq<string>, sep: char)
    requires |fields| >= 1
    requires forall i :: 0 <= i < |fields| ==> FreeOf(fields[i], sep)
    ensures Split(Join(fields, sep), sep) == fields
    decreases |fields|
  {
    if |fields| == 1 {
      calc {
        Split(Join(fields, sep), sep);
      == { assert Join(fields, sep) == "" + fields[0]; }
        Split("" + fields[0], sep);
      == { SplitAppendPlain("", fields[0], sep); }
        [] + ["" + fields[0]];
      == { assert "" + fields[0] == fields[0]; }
        fields;
      }
    } else {
      var init := fields[..|fields| - 1];
      var last := fields[|fields| - 1];
      var j := Join(init, sep);
      var f := Split(j + [sep], sep);
      calc {
        Split(Join(fields, sep), sep);
      == { assert init + [last] == fields; JoinSnoc(init, last, sep); }
        Split((j + [sep]) + last, sep);
      == { assert FreeOf(last, sep); SplitAppendPlain(j + [sep], last, sep); }
        f[..|f| - 1] + [f[|f| - 1] + last];
      == { SplitJoin(init, sep); SplitSeparator(j, sep);
           assert f == init + [""];
           assert f[..|f| - 1] == init && f[|f| - 1] + last == last; }
        init + [last];
      == { assert init + [last] == fields; }
        fields;
      }
    }
  }

  // ---------------------------------------------------------------------
  // The per-shot line
  // ---------------------------------------------------------------------

  /** `f"{x},{y}\n"`, the line sent for a shot at centroid (x, y). */
  function EventLine(x: int, y: int): string
  {
    IntToDecimal(x) + "," + IntToDecimal(y) + "\n"
  }

  /** A client reading one line: drop the `\n`, split on `,`, read two integers. */
  function ParseEventLine(line: string): Option<(int, int)>
  {
    if |line| == 0 || line[|line| - 1] != '\n' then None
    else
      var fields := Split(line[..|line| - 1], ',');
      if |fields| != 2 then None
      else
        match (ParseInt(fields[0]), ParseInt(fields[1]))
        case (Some(x), Some(y)) => Some((x, y))
        case _ => None
  }

  lemma EventLineRoundTrip(x: int, y: int)
    ensures ParseEventLine(EventLine(x, y)) == Some((x, y))
  {
    var line := EventLine(x, y);
    var sx, sy := IntToDecimal(x), IntToDecimal(y);
    assert line[..|line| - 1] == Join([sx, sy], ',');
    SplitJoin([sx, sy], ',');
    IntDecimalRoundTrip(x);
    IntDecimalRoundTrip(y);
  }

  // ---------------------------------------------------------------------
  // The corner announcement
  // ---------------------------------------------------------------------

  /** `f"{x},{y}"` for one corner. */
  function PairText(p: (int, int)): string
  {
    IntToDecimal(p.0) + "," + IntToDecimal(p.1)
  }

  function PairTexts(ps: seq<(int, int)>): (ts: seq<string>)
    ensures |ts| == |ps|
    decreases |ps|
  {
    if |ps| == 0 then [] else PairTexts(ps[..|ps| - 1]) + [PairText(ps[|ps| - 1])]
  }

  /** The coordinates of a list of points, x before y, point after point. */
  function Coordinates(ps: seq<(int, int)>): (ns: seq<int>)
    ensures |ns| == 2 * |ps|
    decreases |ps|
  {
    if |ps| == 0 then []
    else Coordinates(ps[..|ps| - 1]) + [ps[|ps| - 1].0, ps[|ps| - 1].1]
  }

  /** The frame's corners in the order `send_corners` lists them. */
  function Corners(width: int, height: int): seq<(int, int)>
  {
    [(0, 0), (width, 0), (width, height), (0, height)]
  }

  /** The message `send_corners` writes for a frame of the given size. */
  function CornersMessage(width: int, height: int): string
  {
    "CORNERS:" + Join(PairTexts(Corners(width, height)), ',') + "\n"
  }

  /** The decimal text of each integer, in order. */
  function Decimals(ns: seq<int>): seq<string>
  {
    seq(|ns|, i requires 0 <= i < |ns| => IntToDecimal(ns[i]))
  }

  function ParseInts(fields: seq<string>): Option<seq<int>>
    decreases |fields|
  {
    if |fields| == 0 then Some([])
    else
      match (ParseInts(fields[..|fields| - 1]), ParseInt(fields[|fields| - 1]))
      case (Some(ns), Some(n)) => Some(ns + [n])
      case _ => None
  }

  /** One more integer is one more decimal field. */
  lemma DecimalsSnoc(ns: seq<int>, n: int)
    ensures Decimals(ns + [n]) == Decimals(ns) + [IntToDecimal(n)]
  {
  }

  /** Reading one more field appends its value, when every field so far was read. */
  lemma ParseIntsSnoc(fields: seq<string>, d: string)
    ensures ParseInts(fields + [d])
         == if ParseInts(fields).Some? && ParseInt(d).Some?
            then Some(ParseInts(fields).value + [ParseInt(d).value]) else None
  {
    assert (fields + [d])[..|fields|] == fields;
    assert (fields + [d])[|fields|] == d;
  }

  /** A client reading the corner message: check the prefix and the `\n`, split on `,`. */
  function ParseCorners(msg: string): Option<seq<int>>
  {
    if |msg| < 9 || msg[..8] != "CORNERS:" || msg[|msg| - 1] != '\n' then None
    else ParseInts(Split(msg[8..|msg| - 1], ','))
  }

  lemma {:induction false} ParseIntsDecimals(ns: seq<int>)
    ensures ParseInts(Decimals(ns)) == Some(ns)
    decreases |ns|
  {
    if |ns| > 0 {
      var init, last := ns[..|ns| - 1], ns[|ns| - 1];
      calc {
        ParseInts(Decimals(ns));
      == { assert init + [last] == ns; DecimalsSnoc(init, last); }
        ParseInts(Decimals(init) + [IntToDecimal(last)]);
      == { ParseIntsSnoc(Decimals(init), IntToDecimal(last));
           ParseIntsDecimals(init);
           IntDecimalRoundTrip(last); }
        Some(init + [last]);
      == { assert init + [last] == ns; }
        Some(ns);
      }
    }
  }

  lemma DecimalsPair(ns: seq<int>, x: int, y: int)
    ensures Decimals(ns + [x, y]) == (Decimals(ns) + [IntToDecimal(x)]) + [IntToDecimal(y)]
  {
  }

  /** Joining `"x,y"` texts with `,` is joining all the coordinates with `,`. */
  lemma {:induction false} JoinPairTexts(ps: seq<(int, int)>)
    requires |ps| >= 1
    ensures Join(PairTexts(ps), ',') == Join(Decimals(Coordinates(ps)), ',')
    decreases |ps|
  {
    var p := ps[|ps| - 1];
    var dx, dy := IntToDecimal(p.0), IntToDecimal(p.1);
    var init := ps[..|ps| - 1];
    var ds := Decimals(Coordinates(init));
    if |ps| == 1 {
      calc {
        Join(PairTexts(ps), ',');
      == { assert PairTexts(ps) == [PairText(p)]; }
        dx + [','] + dy;
      == { JoinSnoc([dx], dy, ','); assert ds == []; assert (ds + [dx]) + [dy] == [dx] + [dy]; }
        Join((ds + [dx]) + [dy], ',');
      == { JoinPairTextsLast(ps); }
        Join(Decimals(Coordinates(ps)), ',');
      }
    } else {
      var pt := PairTexts(init);
      calc {
        Join(PairTexts(ps), ',');
      == { JoinSnoc(pt, PairText(p), ','); }
        Join(pt, ',') + [','] + PairText(p);
      == { JoinPairTexts(init); }
        Join(ds, ',') + [','] + (dx + [','] + dy);
      == { ConcatFive(Join(ds, ','), [','], dx, [','], dy); }
        Join(ds, ',') + [','] + dx + [','] + dy;
      == { JoinSnoc(ds, dx, ','); JoinSnoc(ds + [dx], dy, ','); }
        Join((ds + [dx]) + [dy], ',');
      == { JoinPairTextsLast(ps); }
        Join(Decimals(Coordinates(ps)), ',');
      }
    }
  }

  lemma ConcatFive(a: string, b: string, c: string, d: string, e: string)
    ensures a + b + (c + d + e) == a + b + c + d + e
  {
  }

  /** The decimal fields of a list of pairs end with those of its last pair. */
  lemma JoinPairTextsLast(ps: seq<(int, int)>)
    requires |ps| >= 1
    ensures var p := ps[|ps| - 1];
            Decimals(Coordinates(ps))
              == (Decimals(Coordinates(ps[..|ps| - 1])) + [IntToDecimal(p.0)]) + [IntToDecimal(p.1)]
  {
    var p := ps[|ps| - 1];
    assert Coordinates(ps) == Coordinates(ps[..|ps| - 1]) + [p.0, p.1];
    DecimalsPair(Coordinates(ps[..|ps| - 1]), p.0, p.1);
  }

  /** The corners' coordinates, in the order `send_corners` lists them. */
  lemma CornersCoordinates(width: int, height: int)
    ensures Coordinates(Corners(width, height)) == [0, 0, width, 0, width, height, 0, height]
  {
    var corners := Corners(width, height);
    assert corners[..3][..2][..1] == [(0, 0)];
    assert Coordinates(corners[..3][..2]) == [0, 0, width, 0];
    assert Coordinates(corners[..3]) == [0, 0, width, 0, width, height];
  }

  /** The text between `CORNERS:` and the newline splits into the coordinates' decimals. */
  lemma CornersFields(width: int, height: int)
    ensures var msg := CornersMessage(width, height);
            && |msg| >= 9 && msg[..8] == "CORNERS:" && msg[|msg| - 1] == '\n'
            && Split(msg[8..|msg| - 1], ',') == Decimals(Coordinates(Corners(width, height)))
  {
    var msg := CornersMessage(width, height);
    var corners := Corners(width, height);
    assert msg[8..|msg| - 1] == Join(PairTexts(corners), ',');
    JoinPairTexts(corners);
    SplitJoin(Decimals(Coordinates(corners)), ',');
  }

  lemma CornersRoundTrip(width: int, height: int)
    ensures ParseCorners(CornersMessage(width, height)) == Some([0, 0, width, 0, width, height, 0, height])
  {
    var coords := Coordinates(Corners(width, height));
    CornersFields(width, height);
    ParseIntsDecimals(coords);
    CornersCoordinates(width, height);
  }
}
