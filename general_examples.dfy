/**
 * Worked breadcrumb trails for concrete request paths.
 */
module GeneralExamples {
  import opened PyStr
  import opened General

  /** `"/a//b/"` and `"a/b"` both give the trail root, a, b. */
  lemma ExtraSlashesExample(host: string)
    ensures ParentPaths(Request("/a//b/", host)) == ParentPaths(Request("a/b", host))
    ensures ParentPaths(Request("a/b", host)) ==
            [Crumb(RootName, host), Crumb("a", host + "/a"), Crumb("b", host + "/a/b")]
  {
    SlashyComponents();
    PlainComponents();
    KeptAB();
    ExampleTrails(host);
  }

  /** Blank components are skipped; the others are kept with their spaces. */
  lemma VerbatimNamesExample(host: string)
    ensures ParentPaths(Request("/ a /  /b", host)) ==
            [Crumb(RootName, host), Crumb(" a ", host + "/ a "), Crumb("b", host + "/ a /b")]
  {
    SpacedComponents();
    SpacedKept();
    ExampleTrails(host);
  }

  /** `"/a//b/"` loses one slash at each end to `strip("/")` and then
      splits into `a`, an empty piece and `b`. */
  lemma SlashyComponents()
    ensures Components("/a//b/") == ["a", "", "b"]
  {
    var ab := "a//b";
    assert "/a//b/" == ['/'] + (ab + ['/']) && ab[0] == 'a' && ab[|ab| - 1] == 'b';
    StripDropsLeading('/', ab + ['/'], {'/'});
    StripDropsTrailing(ab, '/', {'/'});
    StripKeeps(ab, {'/'});
    assert ab == "a" + "/" + "" + "/" + "b";
    ComponentsOfThree("/a//b/", "a", "", "b");
  }

  /** `"a/b"` has no slash to strip and splits into `a` and `b`. */
  lemma PlainComponents()
    ensures Components("a/b") == ["a", "b"]
  {
    StripKeeps("a/b", {'/'});
    assert "a/b" == "a" + "/" + "b";
    ComponentsOfTwo("a/b", "a", "b");
  }

  /** `"/ a /  /b"` loses its leading slash and splits into `" a "`, `"  "`
      and `b`, spaces kept. */
  lemma SpacedComponents()
    ensures Components("/ a /  /b") == [" a ", "  ", "b"]
  {
    var spaced := " a /  /b";
    assert "/ a /  /b" == ['/'] + spaced;
    StripDropsLeading('/', spaced, {'/'});
    StripKeeps(spaced, {'/'});
    assert spaced == " a " + "/" + "  " + "/" + "b";
    ComponentsOfThree("/ a /  /b", " a ", "  ", "b");
  }

  /** A path whose `strip("/")` is two slash-free parts around a slash has
      exactly those two components. */
  lemma ComponentsOfTwo(path: string, x: string, y: string)
    requires '/' !in x && '/' !in y
    requires Strip(path, {'/'}) == x + "/" + y
    ensures Components(path) == [x, y]
  {
    var parts := [x, y];
    assert parts[1..] == [y];
    assert Join(parts, '/') == x + "/" + y;
    SplitJoin(parts, '/');
  }

  /** A path whose `strip("/")` is three slash-free parts separated by
      slashes has exactly those three components. */
  lemma ComponentsOfThree(path: string, x: string, y: string, z: string)
    requires '/' !in x && '/' !in y && '/' !in z
    requires Strip(path, {'/'}) == x + "/" + y + "/" + z
    ensures Components(path) == [x, y, z]
  {
    var parts := [x, y, z];
    assert parts[1..] == [y, z] && [y, z][1..] == [z];
    assert Join([z], '/') == z;
    assert Join([y, z], '/') == y + "/" + z;
    assert Join(parts, '/') == x + "/" + (y + "/" + z);
    assert x + "/" + (y + "/" + z) == x + "/" + y + "/" + z;
    SplitJoin(parts, '/');
  }

  /** The trails for the names kept from the example paths. */
  lemma ExampleTrails(host: string)
    ensures Trail(host, ["a", "b"]) ==
            [Crumb(RootName, host), Crumb("a", host + "/a"), Crumb("b", host + "/a/b")]
    ensures Trail(host, [" a ", "b"]) ==
            [Crumb(RootName, host), Crumb(" a ", host + "/ a "), Crumb("b", host + "/ a /b")]
  {
    TrailOfTwo(host, "a", "b");
    assert host + "/" + "a" == host + "/a";
    assert host + "/" + "a" + "/" + "b" == host + "/a/b";
    TrailOfTwo(host, " a ", "b");
    assert host + "/" + " a " == host + "/ a ";
    assert host + "/" + " a " + "/" + "b" == host + "/ a /b";
  }

  /** The trail for two names: the second crumb's address extends the first's. */
  lemma TrailOfTwo(host: string, x: string, y: string)
    ensures Trail(host, [x, y]) ==
            [Crumb(RootName, host), Crumb(x, host + "/" + x), Crumb(y, host + "/" + x + "/" + y)]
  {
    var ns := [x, y];
    var t := Trail(host, ns);
    assert ns[..1] == [x] && ns[..2] == ns && ns[1..] == [y];
    assert Join([x], '/') == x;
    assert Join(ns, '/') == x + "/" + y;
    assert |t| == 3 && t[0] == Crumb(RootName, host);
    assert t[1] == Crumb(x, host + "/" + x);
    assert t[2] == Crumb(y, host + "/" + (x + "/" + y));
    assert host + "/" + (x + "/" + y) == host + "/" + x + "/" + y;
    assert t == [t[0], t[1], t[2]];
  }

  /** Only the empty middle component is dropped. */
  lemma KeptAB()
    ensures Kept(["a", "", "b"]) == ["a", "b"]
    ensures Kept(["a", "b"]) == ["a", "b"]
  {
    assert !IsBlank("a") by { assert "a"[0] == 'a'; }
    assert !IsBlank("b") by { assert "b"[0] == 'b'; }
    assert ["a", "", "b"][1..] == ["", "b"] && ["", "b"][1..] == ["b"];
    assert ["a", "b"][1..] == ["b"] && ["b"][1..] == [];
  }

  /** The all-space component is dropped; `" a "` is kept as it is. */
  lemma SpacedKept()
    ensures Kept([" a ", "  ", "b"]) == [" a ", "b"]
  {
    assert !IsBlank(" a ") by { assert " a "[1] == 'a'; }
    assert IsBlank("  ");
    assert !IsBlank("b") by { assert "b"[0] == 'b'; }
    assert [" a ", "  ", "b"][1..] == ["  ", "b"] && ["  ", "b"][1..] == ["b"];
    assert ["b"][1..] == [];
  }
}
