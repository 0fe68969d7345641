/** The worked example of the course list: one page, two courses. */
module Example {
  import opened Optional
  import opened Json
  import opened Strings
  import opened Sorting
  import opened Flattener

  const AlgebraTwo: Fields := [("name", JStr("Algebra II")), ("id", JStr("101")), ("section", JStr("Period: 3"))]
  const AlgebraOne: Fields := [("name", JStr("algebra I")), ("id", JStr("100"))]
  const CoursesPage: Fields := [("courses", JArr([JObj(AlgebraTwo), JObj(AlgebraOne)]))]

  lemma AlgebraTwoItem()
    ensures FlattenItem(JObj(AlgebraTwo)) == Some(FlatItem(JStr("Algebra II"), JStr("101"), Some("3"), None))
  {
    var f := AlgebraTwo;
    GetUnique(f, 0, "name");
    GetUnique(f, 1, "id");
    GetUnique(f, 2, "section");
    assert !HasKey(f, "maxPoints");
    RemovePrefixOfConcat("Period: ", "3");
    assert "Period: 3" == "Period: " + "3";
    assert ItemName(JObj(f)) == Some(JStr("Algebra II"));
    assert ItemID(JObj(f)) == Some(JStr("101"));
    assert ItemSection(JObj(f)) == Some(Some("3"));
    assert ItemMaxPoints(JObj(f)) == Some(None);
  }

  lemma AlgebraOneItem()
    ensures FlattenItem(JObj(AlgebraOne)) == Some(FlatItem(JStr("algebra I"), JStr("100"), None, None))
  {
    var f := AlgebraOne;
    GetUnique(f, 0, "name");
    GetUnique(f, 1, "id");
    assert !HasKey(f, "section");
    assert !HasKey(f, "maxPoints");
    assert ItemName(JObj(f)) == Some(JStr("algebra I"));
    assert ItemID(JObj(f)) == Some(JStr("100"));
    assert ItemSection(JObj(f)) == Some(None);
    assert ItemMaxPoints(JObj(f)) == Some(None);
  }

  const Courses: seq<Json> := [JObj(AlgebraTwo), JObj(AlgebraOne)]
  const FlatAlgebraTwo: FlatItem := FlatItem(JStr("Algebra II"), JStr("101"), Some("3"), None)
  const FlatAlgebraOne: FlatItem := FlatItem(JStr("algebra I"), JStr("100"), None, None)

  lemma CoursesCollection()
    ensures Collection(CoursesPage) == Some(Courses)
    ensures !HasKey(CoursesPage, NextPageTokenKey)
  {
    GetUnique(CoursesPage, 0, "courses");
  }

  lemma CoursesFlattened()
    ensures FlattenItems(Courses) == Some([FlatAlgebraTwo, FlatAlgebraOne])
  {
    AlgebraTwoItem();
    AlgebraOneItem();
    FlattenTwo(JObj(AlgebraTwo), JObj(AlgebraOne), FlatAlgebraTwo, FlatAlgebraOne);
  }

  lemma CoursesPageItems()
    ensures PageItems(CoursesPage) == Some([FlatAlgebraTwo, FlatAlgebraOne])
    ensures !HasKey(CoursesPage, NextPageTokenKey)
  {
    CoursesCollection();
    CoursesFlattened();
  }

  /** Both names lower-case to "a" + "lgebra i", and the first has one more "i". */
  lemma CaseInsensitiveOrder()
    ensures !LexLe(NameKey(FlatAlgebraTwo), NameKey(FlatAlgebraOne))
  {
    var rest := "lgebra I";
    assert "Algebra II" == "A" + rest + "I";
    assert "algebra I" == "a" + rest;
    LowerAppend("A" + rest, "I");
    LowerAppend("A", rest);
    LowerAppend("a", rest);
    assert Lower("A") == Lower("a");
    var kb := Lower("a") + Lower(rest);
    assert NameKey(FlatAlgebraOne) == kb;
    assert NameKey(FlatAlgebraTwo) == kb + Lower("I");
    assert (kb + Lower("I"))[..|kb|] == kb;
    ProperPrefixSortsFirst(NameKey(FlatAlgebraTwo), NameKey(FlatAlgebraOne));
  }

  /** Two courses, no cursor: defaults left out, the section prefix removed,
      and "algebra I" before "Algebra II" because case is ignored. */
  lemma CoursesExample(session: map<string, Json>, params: Params)
    requires "token" in session
    ensures ParserInator(session, params, [Fetched(CoursesPage)])
            == Some([FlatAlgebraOne, FlatAlgebraTwo])
  {
    CoursesPageItems();
    SinglePage(session, params, CoursesPage);
    assert AllNamed([FlatAlgebraTwo, FlatAlgebraOne]);
    CaseInsensitiveOrder();
    SortTwo(NameKey, FlatAlgebraTwo, FlatAlgebraOne);
  }
}
