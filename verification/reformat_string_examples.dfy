/** The worked examples of the reformatter's documentation, proved over the model. */
module ReformatStringExamples {
  import opened ReformatString

  predicate Plain(a: string)
  {
    forall k :: 0 <= k < |a| ==> !IsSeparator(a[k])
  }

  predicate Separators(x: string)
  {
    forall k :: 0 <= k < |x| ==> IsSeparator(x[k])
  }

  /** Five runs of kept characters with runs of separators between them strip to the runs glued together. */
  lemma StripRuns(a: string, x: string, b: string, y: string, c: string, z: string, d: string, w: string, e: string)
    requires Plain(a) && Plain(b) && Plain(c) && Plain(d) && Plain(e)
    requires Separators(x) && Separators(y) && Separators(z) && Separators(w)
    ensures Strip(a + (x + (b + (y + (c + (z + (d + (w + e)))))))) == a + (b + (c + (d + e)))
  {
    StripKeepFront(e, []);
    assert e + [] == e;
    StripDropFront(w, e);
    StripKeepFront(d, w + e);
    StripDropFront(z, d + (w + e));
    StripKeepFront(c, z + (d + (w + e)));
    StripDropFront(y, c + (z + (d + (w + e))));
    StripKeepFront(b, y + (c + (z + (d + (w + e)))));
    StripDropFront(x, b + (y + (c + (z + (d + (w + e))))));
    StripKeepFront(a, x + (b + (y + (c + (z + (d + (w + e)))))));
  }

  /** The first example's input, cut into runs of kept characters and runs of separators. */
  lemma ExampleMixedRuns()
    ensures "AA-44 BB 55CD 83FG" == "AA" + ("-" + ("44" + (" " + ("BB" + (" " + ("55CD" + (" " + "83FG")))))))
  {
  }

  lemma ExampleMixedStrip(s: string)
    requires s == "AA-44 BB 55CD 83FG"
    ensures Strip(s) == "AA44BB55CD83FG"
  {
    ExampleMixedRuns();
    StripRuns("AA", "-", "44", " ", "BB", " ", "55CD", " ", "83FG");
  }

  lemma ExampleMixedGroups()
    ensures Groups("AA44BB55CD83FG") == ["AA4", "4BB", "55C", "D83", "FG"]
  {
    assert "AA44BB55CD83FG" == "AA4" + ("4BB" + ("55C" + ("D83" + "FG")));
    GroupsFirstBlock("D83", "FG");
    GroupsFirstBlock("55C", "D83" + "FG");
    GroupsFirstBlock("4BB", "55C" + ("D83" + "FG"));
    GroupsFirstBlock("AA4", "4BB" + ("55C" + ("D83" + "FG")));
  }

  lemma ExampleMixedJoin()
    ensures Join(["AA4", "4BB", "55C", "D83", "FG"]) + ";" == "AA4 4BB 55C D83 FG;"
  {
  }

  /** First worked example: mixed separators, a remainder of two. */
  lemma ReformatExampleMixed(s: string)
    requires s == "AA-44 BB 55CD 83FG"
    ensures Reformat(s) == "AA4 4BB 55C D83 FG;"
  {
    ExampleMixedStrip(s);
    ExampleMixedGroups();
    ExampleMixedJoin();
  }

  /** The digits example's input, cut into runs of kept characters and runs of separators. */
  lemma ExampleDigitsRuns()
    ensures "00-44 48 5555 8361" == "00" + ("-" + ("44" + (" " + ("48" + (" " + ("5555" + (" " + "8361")))))))
  {
  }

  lemma ExampleDigitsStrip(s: string)
    requires s == "00-44 48 5555 8361"
    ensures Strip(s) == "00444855558361"
  {
    ExampleDigitsRuns();
    StripRuns("00", "-", "44", " ", "48", " ", "5555", " ", "8361");
  }

  lemma ExampleDigitsGroups()
    ensures Groups("00444855558361") == ["004", "448", "555", "583", "61"]
  {
    assert "00444855558361" == "004" + ("448" + ("555" + ("583" + "61")));
    GroupsFirstBlock("583", "61");
    GroupsFirstBlock("555", "583" + "61");
    GroupsFirstBlock("448", "555" + ("583" + "61"));
    GroupsFirstBlock("004", "448" + ("555" + ("583" + "61")));
  }

  lemma ExampleDigitsJoin()
    ensures Join(["004", "448", "555", "583", "61"]) + ";" == "004 448 555 583 61;"
  {
  }

  /** Second worked example: digits only, a remainder of two. */
  lemma ReformatExampleDigits(s: string)
    requires s == "00-44 48 5555 8361"
    ensures Reformat(s) == "004 448 555 583 61;"
  {
    ExampleDigitsStrip(s);
    ExampleDigitsGroups();
    ExampleDigitsJoin();
  }

  /** The third example's input, cut into runs of kept characters and runs of separators. */
  lemma ExampleTailRuns()
    ensures "0 - 22 1985--324" == "0" + (" - " + ("22" + (" " + ("1985" + ("--" + ("32" + ("" + "4")))))))
  {
  }

  lemma ExampleTailStrip(s: string)
    requires s == "0 - 22 1985--324"
    ensures Strip(s) == "0221985324"
  {
    ExampleTailRuns();
    StripRuns("0", " - ", "22", " ", "1985", "--", "32", "", "4");
  }

  lemma ExampleTailGroups()
    ensures Groups("0221985324") == ["022", "198", "53", "24"]
  {
    assert "0221985324" == "022" + ("198" + "5324");
    GroupsFirstBlock("198", "5324");
    GroupsFirstBlock("022", "198" + "5324");
    assert "5324"[..2] == "53" && "5324"[2..] == "24";
  }

  lemma ExampleTailJoin()
    ensures Join(["022", "198", "53", "24"]) + ";" == "022 198 53 24;"
  {
  }

  /** Third worked example: a remainder of one ends in two blocks of two. */
  lemma ReformatExampleTail(s: string)
    requires s == "0 - 22 1985--324"
    ensures Reformat(s) == "022 198 53 24;"
  {
    ExampleTailStrip(s);
    ExampleTailGroups();
    ExampleTailJoin();
  }

  lemma ExampleExactStrip(s: string)
    requires s == "ABC372654"
    ensures Strip(s) == "ABC372654"
  {
    StripKeepFront(s, []);
    assert s + [] == s;
  }

  lemma ExampleExactGroups()
    ensures Groups("ABC372654") == ["ABC", "372", "654"]
  {
    assert "ABC372654" == "ABC" + ("372" + "654");
    GroupsFirstBlock("372", "654");
    GroupsFirstBlock("ABC", "372" + "654");
  }

  lemma ExampleExactJoin()
    ensures Join(["ABC", "372", "654"]) + ";" == "ABC 372 654;"
  {
  }

  /** Fourth worked example: nothing to delete, three full blocks. */
  lemma ReformatExampleExact(s: string)
    requires s == "ABC372654"
    ensures Reformat(s) == "ABC 372 654;"
  {
    ExampleExactStrip(s);
    ExampleExactGroups();
    ExampleExactJoin();
  }
}
