/** The concrete path vectors and identifiers of the source's tests, checked against the
    encoder and decoder.  Each prefix of `[3, 12, 5, 1, 21]` is derived from the one before. */
module PathExamples {
  import opened Wrappers
  import opened PathIds
  import opened PathText

  /** The identifiers of the source's test paths, from the root to `[3, 12, 5, 1, 21]`; each
      is derived from the one before by appending the next element. */
  lemma EncodeExamples()
    ensures Encode([]) == PathIdentifier(1, 0, 0, 1)
    ensures Encode([3]) == PathIdentifier(5, 1, 1, 0)
    ensures Encode([3, 12]) == PathIdentifier(71, 5, 14, 1)
    ensures Encode([3, 12, 5]) == PathIdentifier(502, 71, 99, 14)
    ensures Encode([3, 12, 5, 1]) == PathIdentifier(1577, 502, 311, 99)
    ensures Encode([3, 12, 5, 1, 21]) == PathIdentifier(36773, 1577, 7252, 311)
  {
    assert Encode([3]) == PathIdentifier(5, 1, 1, 0) by {
      assert [3][..0] == [];
    }
    assert Encode([3, 12]) == PathIdentifier(71, 5, 14, 1) by {
      assert [3, 12][..1] == [3];
    }
    assert Encode([3, 12, 5]) == PathIdentifier(502, 71, 99, 14) by {
      assert [3, 12, 5][..2] == [3, 12];
    }
    assert Encode([3, 12, 5, 1]) == PathIdentifier(1577, 502, 311, 99) by {
      assert [3, 12, 5, 1][..3] == [3, 12, 5];
    }
    assert [3, 12, 5, 1, 21][..4] == [3, 12, 5, 1];
  }

  /** Decoding an identifier known to encode `v` gives `v`. */
  lemma DecodeKnown(v: seq<nat>, id: PathIdentifier)
    requires Encode(v) == id
    ensures IsEncoding(id) && Decode(id) == v
  {
    DecodeEncode(v);
  }

  /** Decoding the identifiers of the test paths gives the paths back, one lemma per path. */
  lemma DecodeExampleRoot()
    ensures IsEncoding(PathIdentifier(1, 0, 0, 1)) && Decode(PathIdentifier(1, 0, 0, 1)) == []
  {
    EncodeExamples();
    DecodeKnown([], PathIdentifier(1, 0, 0, 1));
  }

  lemma DecodeExample1()
    ensures IsEncoding(PathIdentifier(5, 1, 1, 0)) && Decode(PathIdentifier(5, 1, 1, 0)) == [3]
  {
    EncodeExamples();
    DecodeKnown([3], PathIdentifier(5, 1, 1, 0));
  }

  lemma DecodeExample2()
    ensures IsEncoding(PathIdentifier(71, 5, 14, 1)) && Decode(PathIdentifier(71, 5, 14, 1)) == [3, 12]
  {
    EncodeExamples();
    DecodeKnown([3, 12], PathIdentifier(71, 5, 14, 1));
  }

  lemma DecodeExample3()
    ensures IsEncoding(PathIdentifier(502, 71, 99, 14)) && Decode(PathIdentifier(502, 71, 99, 14)) == [3, 12, 5]
  {
    EncodeExamples();
    DecodeKnown([3, 12, 5], PathIdentifier(502, 71, 99, 14));
  }

  lemma DecodeExample4()
    ensures IsEncoding(PathIdentifier(1577, 502, 311, 99)) && Decode(PathIdentifier(1577, 502, 311, 99)) == [3, 12, 5, 1]
  {
    EncodeExamples();
    DecodeKnown([3, 12, 5, 1], PathIdentifier(1577, 502, 311, 99));
  }

  lemma DecodeExample5()
    ensures IsEncoding(PathIdentifier(36773, 1577, 7252, 311)) && Decode(PathIdentifier(36773, 1577, 7252, 311)) == [3, 12, 5, 1, 21]
  {
    EncodeExamples();
    DecodeKnown([3, 12, 5, 1, 21], PathIdentifier(36773, 1577, 7252, 311));
  }

  /** The dotted text of the test paths parses to their identifiers. */
  lemma ParseExampleRoot()
    ensures FromStr("") == Ok(PathIdentifier(1, 0, 0, 1))
  {
  }

  /** The numerals of the test paths. */
  lemma TestNumerals()
    ensures ParseU64("3") == Ok(3) && ParseU64("12") == Ok(12) && ParseU64("5") == Ok(5)
    ensures ParseU64("1") == Ok(1) && ParseU64("21") == Ok(21)
  {
  }

  /** The numerals of each test path, joined by dots, parse to the encoding of the path. */
  lemma ParseText1()
    ensures FromStr(Join(["3"], '.')) == Ok(Encode([3]))
  {
    TestNumerals();
    FromStrJoin(["3"], [3]);
  }

  lemma ParseText2()
    ensures FromStr(Join(["3", "12"], '.')) == Ok(Encode([3, 12]))
  {
    TestNumerals();
    FromStrJoin(["3", "12"], [3, 12]);
  }

  lemma ParseText3()
    ensures FromStr(Join(["3", "12", "5"], '.')) == Ok(Encode([3, 12, 5]))
  {
    TestNumerals();
    FromStrJoin(["3", "12", "5"], [3, 12, 5]);
  }

  lemma ParseText4()
    ensures FromStr(Join(["3", "12", "5", "1"], '.')) == Ok(Encode([3, 12, 5, 1]))
  {
    TestNumerals();
    FromStrJoin(["3", "12", "5", "1"], [3, 12, 5, 1]);
  }

  lemma ParseText5()
    ensures FromStr(Join(["3", "12", "5", "1", "21"], '.')) == Ok(Encode([3, 12, 5, 1, 21]))
  {
    TestNumerals();
    FromStrJoin(["3", "12", "5", "1", "21"], [3, 12, 5, 1, 21]);
  }

  /** The dotted texts of the test paths parse to the identifiers of the test vectors. */
  lemma ParseExample1()
    ensures FromStr("3") == Ok(PathIdentifier(5, 1, 1, 0))
  {
    JoinText1();
    ParseText1();
    EncodeExamples();
  }

  lemma ParseExample2()
    ensures FromStr("3.12") == Ok(PathIdentifier(71, 5, 14, 1))
  {
    JoinText2();
    ParseText2();
    EncodeExamples();
  }

  lemma ParseExample3()
    ensures FromStr("3.12.5") == Ok(PathIdentifier(502, 71, 99, 14))
  {
    JoinText3();
    ParseText3();
    EncodeExamples();
  }

  lemma ParseExample4()
    ensures FromStr("3.12.5.1") == Ok(PathIdentifier(1577, 502, 311, 99))
  {
    JoinText4();
    ParseText4();
    EncodeExamples();
  }

  lemma ParseExample5()
    ensures FromStr("3.12.5.1.21") == Ok(PathIdentifier(36773, 1577, 7252, 311))
  {
    JoinText5();
    ParseText5();
    EncodeExamples();
  }

  /** The texts of the test paths are their numerals joined by dots. */
  lemma JoinText1()
    ensures Join(["3"], '.') == "3"
  {
  }

  lemma JoinText2()
    ensures Join(["3", "12"], '.') == "3.12"
  {
  }

  lemma JoinText3()
    ensures Join(["3", "12", "5"], '.') == "3.12.5"
  {
  }

  lemma JoinText4()
    ensures Join(["3", "12", "5", "1"], '.') == "3.12.5.1"
  {
  }

  lemma JoinText5()
    ensures Join(["3", "12", "5", "1", "21"], '.') == "3.12.5.1.21"
  {
  }

  lemma JoinBadTexts()
    ensures Join(["3", "", "5"], '.') == "3..5"
    ensures Join(["3", "x"], '.') == "3.x"
  {
  }

  lemma ParseEmptyPart()
    ensures FromStr(Join(["3", "", "5"], '.')) == Err(Empty)
  {
    SplitJoin(["3", "", "5"], '.');
    assert ParseU64("3") == Ok(3) && ParseU64("") == Err(Empty);
    assert ["3", "", "5"][1..] == ["", "5"];
    assert ParseComponents(["3", "", "5"]) == Err(Empty);
  }

  lemma ParseInvalidPart()
    ensures FromStr(Join(["3", "x"], '.')) == Err(InvalidDigit)
  {
    SplitJoin(["3", "x"], '.');
    assert ParseU64("3") == Ok(3) && ParseU64("x") == Err(InvalidDigit);
    assert ["3", "x"][1..] == ["x"];
    assert ParseComponents(["3", "x"]) == Err(InvalidDigit);
  }

  /** An empty component fails the whole parse, even when the other components are numbers,
      and so does a component that is not a number. */
  lemma ParseErrorExamples()
    ensures FromStr("3..5") == Err(Empty)
    ensures FromStr("3.x") == Err(InvalidDigit)
  {
    JoinBadTexts();
    ParseEmptyPart();
    ParseInvalidPart();
  }
}
