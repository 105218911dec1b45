/** `StringUtil.enumNameToCamelCase`: an upper-case, underscore-separated enum constant
    name turned into a camel-case display name. */
module StringUtil {
  import opened JavaString

  /** What one piece between underscores contributes: its first character upper-cased
      and the rest lower-cased; an empty piece contributes nothing. */
  function Segment(s: string): (r: string)
    ensures |r| == |s|
  {
    if |s| == 0 then "" else [ToUpperChar(s[0])] + ToLower(s[1..])
  }

  /** The contributions of the pieces, in order. */
  function Segments(parts: seq<string>): string
    decreases |parts|
  {
    if |parts| == 0 then "" else Segments(parts[..|parts| - 1]) + Segment(parts[|parts| - 1])
  }

  /** The name the method builds: the pieces of `value.split("_")`, each contributing
      its segment, concatenated. */
  function CamelCase(value: string): string
  {
    Segments(Split(value, '_'))
  }

  /** `enumNameToCamelCase`: appends the segment of each piece to a builder. */
  method EnumNameToCamelCase(value: string) returns (r: string)
    ensures r == CamelCase(value)
  {
    var split := Split(value, '_');
    var sb := "";
    var i := 0;
    while i < |split|
      invariant 0 <= i <= |split|
      invariant sb == Segments(split[..i])
    {
      var s := split[i];
      ghost var before := sb;
      if |s| > 0 {
        sb := sb + [ToUpperChar(s[0])];
        if |s| > 1 {
          sb := sb + ToLower(s[1..]);
        }
      }
      assert sb == before + Segment(s);
      assert split[..i + 1][..i] == split[..i];
      assert Segments(split[..i + 1]) == Segments(split[..i]) + Segment(s);
      i := i + 1;
    }
    assert split[..|split|] == split;
    r := sb;
  }

  // ----- properties -----

  function Count(s: string, c: char): nat
    decreases |s|
  {
    if |s| == 0 then 0 else Count(s[..|s| - 1], c) + (if s[|s| - 1] == c then 1 else 0)
  }

  function TotalLength(parts: seq<string>): nat
    decreases |parts|
  {
    if |parts| == 0 then 0 else TotalLength(parts[..|parts| - 1]) + |parts[|parts| - 1]|
  }

  predicate NoneContains(parts: seq<string>, c: char)
  {
    forall i :: 0 <= i < |parts| ==> c !in parts[i]
  }

  lemma {:induction false} SegmentsNoUnderscore(parts: seq<string>)
    requires NoneContains(parts, '_')
    ensures '_' !in Segments(parts)
    ensures |Segments(parts)| == TotalLength(parts)
    decreases |parts|
  {
    if |parts| > 0 {
      var last := parts[|parts| - 1];
      SegmentsNoUnderscore(parts[..|parts| - 1]);
      var seg := Segment(last);
      forall k | 0 <= k < |seg|
        ensures seg[k] != '_'
      {
        assert last[k] != '_';
        if k > 0 { assert seg[k] == ToLower(last[1..])[k - 1]; }
      }
    }
  }

  /** The output holds no underscore. */
  lemma NoUnderscore(value: string)
    ensures '_' !in CamelCase(value)
  {
    SegmentsNoUnderscore(Split(value, '_'));
  }

  function NonEmpty(parts: seq<string>): (r: seq<string>)
    ensures forall i :: 0 <= i < |r| ==> r[i] != ""
    decreases |parts|
  {
    if |parts| == 0 then []
    else NonEmpty(parts[..|parts| - 1]) + (if parts[|parts| - 1] == "" then [] else [parts[|parts| - 1]])
  }

  /** Empty pieces — from leading, trailing or doubled underscores — contribute nothing:
      only the non-empty pieces, in order, make up the output. */
  lemma {:induction false} EmptyPiecesIgnored(parts: seq<string>)
    ensures Segments(parts) == Segments(NonEmpty(parts))
    decreases |parts|
  {
    if |parts| > 0 {
      var init, last := parts[..|parts| - 1], parts[|parts| - 1];
      EmptyPiecesIgnored(init);
      assert Segments(parts) == Segments(init) + Segment(last);
      if last != "" {
        var ne := NonEmpty(init) + [last];
        assert NonEmpty(parts) == ne;
        assert ne[..|ne| - 1] == NonEmpty(init);
        assert Segments(ne) == Segments(NonEmpty(init)) + Segment(last);
      } else {
        assert NonEmpty(parts) == NonEmpty(init);
        assert Segments(parts) == Segments(init);
      }
    }
  }

  lemma {:induction false} JoinCounts(parts: seq<string>, sep: char)
    requires |parts| >= 1 && NoneContains(parts, sep)
    ensures |Join(parts, sep)| == TotalLength(parts) + |parts| - 1
    ensures Count(Join(parts, sep), sep) == |parts| - 1
    decreases |parts|
  {
    if |parts| == 1 {
      CountAbsent(parts[0], sep);
      assert parts[..0] == [];
    } else {
      JoinCounts(parts[1..], sep);
      assert NoneContains(parts[1..], sep) by {
        forall i | 0 <= i < |parts[1..]| ensures sep !in parts[1..][i] { assert parts[1..][i] == parts[i + 1]; }
      }
      CountAbsent(parts[0], sep);
      CountConcat(parts[0] + [sep], Join(parts[1..], sep), sep);
      CountConcat(parts[0], [sep], sep);
      TotalLengthCons(parts);
    }
  }

  lemma {:induction false} TotalLengthCons(parts: seq<string>)
    requires |parts| >= 1
    ensures TotalLength(parts) == |parts[0]| + TotalLength(parts[1..])
    decreases |parts|
  {
    if |parts| > 1 {
      TotalLengthCons(parts[..|parts| - 1]);
      assert parts[..|parts| - 1][1..] == parts[1..][..|parts[1..]| - 1];
    } else {
      assert parts[1..] == [];
    }
  }

  lemma {:induction false} CountAbsent(s: string, c: char)
    requires c !in s
    ensures Count(s, c) == 0
    decreases |s|
  {
    if |s| > 0 { CountAbsent(s[..|s| - 1], c); }
  }

  lemma {:induction false} CountConcat(a: string, b: string, c: char)
    ensures Count(a + b, c) == Count(a, c) + Count(b, c)
    decreases |b|
  {
    if |b| > 0 {
      CountConcat(a, b[..|b| - 1], c);
      assert (a + b)[..|a + b| - 1] == a + b[..|b| - 1];
    } else {
      assert a + b == a;
    }
  }

  lemma {:induction false} TotalLengthDropTrailing(parts: seq<string>)
    ensures TotalLength(DropTrailingEmpty(parts)) == TotalLength(parts)
    decreases |parts|
  {
    if |parts| > 0 && parts[|parts| - 1] == "" {
      TotalLengthDropTrailing(parts[..|parts| - 1]);
    }
  }

  /** For ASCII input the output is the input with its underscores removed in length. */
  lemma OutputLength(value: string)
    ensures |CamelCase(value)| == |value| - Count(value, '_')
  {
    var parts := Split(value, '_');
    SegmentsNoUnderscore(parts);
    if '_' in value {
      var raw := RawSplit(value, '_');
      JoinCounts(raw, '_');
      TotalLengthDropTrailing(raw);
    } else {
      CountAbsent(value, '_');
      assert parts[..0] == [];
    }
  }

  /** A name without underscores becomes the capitalised, otherwise lower-cased word. */
  lemma SingleWord(value: string)
    requires '_' !in value
    ensures CamelCase(value) == Segment(value)
  {
    assert Split(value, '_') == [value];
    assert [value][..0] == [];
    assert Segments([value]) == Segments([]) + Segment(value);
  }

  /** "DARK_AQUA" becomes "DarkAqua". */
  lemma DarkAqua()
    ensures CamelCase("DARK_AQUA") == "DarkAqua"
  {
    var a, b := "DARK", "AQUA";
    JoinDarkAqua();
    TwoWords(a, b);
    var d, q := Segment(a), Segment(b);
    SegmentDark();
    SegmentAqua();
    assert d + q == "DarkAqua";
  }

  /** Two words joined by an underscore come out as their two segments. */
  lemma TwoWords(a: string, b: string)
    requires '_' !in a && '_' !in b && b != ""
    ensures CamelCase(Join([a, b], '_')) == Segment(a) + Segment(b)
  {
    SplitJoin([a, b], '_');
    SegmentsPair(a, b);
  }

  // The steps of the example, each kept in a lemma of its own so that the solver
  // meets one string at a time.

  lemma JoinDarkAqua()
    ensures Join(["DARK", "AQUA"], '_') == "DARK_AQUA"
  {
    assert ["DARK", "AQUA"][1..] == ["AQUA"];
  }

  lemma SegmentsPair(a: string, b: string)
    ensures Segments([a, b]) == Segment(a) + Segment(b)
  {
    var p := [a, b];
    assert p[..1] == [a];
    var q := [a];
    assert q[..0] == [];
    assert Segments(q) == "" + Segment(a);
    assert "" + Segment(a) == Segment(a);
    assert Segments(p) == Segments(q) + Segment(b);
  }

  lemma SegmentDark()
    ensures Segment("DARK") == "Dark"
  {
    var t := ToLower("ARK");
    assert t[0] == 'a' && t[1] == 'r' && t[2] == 'k';
  }

  lemma SegmentAqua()
    ensures Segment("AQUA") == "Aqua"
  {
    var t := ToLower("QUA");
    assert t[0] == 'q' && t[1] == 'u' && t[2] == 'a';
  }
}
