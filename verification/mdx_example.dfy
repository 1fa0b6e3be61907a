/** A worked instance of the post index: three posts a month apart. */
module MdxExample {
  import opened Optional
  import opened Strings
  import opened Sequences
  import opened Mdx

  /** The three-post directory of the examples below: posts dated a month
      apart, tagged `x`, `x y` and `y`. */
  function ExampleFiles(): seq<PostFile> {
    [PostFile("a.mdx", FrontMatter("A", "", "2024-01-01", "", Some(["x"]), "", None), "alpha"),
     PostFile("b.mdx", FrontMatter("B", "", "2024-02-01", "", Some(["x", "y"]), "", None), "beta"),
     PostFile("c.mdx", FrontMatter("C", "", "2024-03-01", "", Some(["y"]), "", None), "gamma")]
  }

  lemma ExampleIndex(readingTime: string -> string)
    ensures var files := ExampleFiles();
      Index(files, readingTime) == [Normalise(files[0], readingTime), Normalise(files[1], readingTime), Normalise(files[2], readingTime)]
  {
    var files := ExampleFiles();
    assert IsPostFile(files[0].name) && IsPostFile(files[1].name) && IsPostFile(files[2].name);
    assert files[1..][1..] == files[2..];
    assert files[2..][1..] == [];
  }

  lemma SortThree(pa: Post, pb: Post, pc: Post)
    requires Less(pb.date, pc.date) && Less(pa.date, pc.date) && Less(pa.date, pb.date)
    ensures SortByDate([pa, pb, pc]) == [pc, pb, pa]
  {
    var one := SortByDate([pc]);
    assert one == [pc] by {
      assert [pc][1..] == [];
    }
    var two := SortByDate([pb, pc]);
    assert two == [pc, pb] by {
      assert [pb, pc][1..] == [pc];
      assert InsertByDate(pb, [pc]) == [pc, pb];
    }
    assert SortByDate([pa, pb, pc]) == [pc, pb, pa] by {
      assert [pa, pb, pc][1..] == [pb, pc];
      assert [pc, pb][1..] == [pb];
      assert InsertByDate(pa, [pb]) == [pb, pa];
      assert InsertByDate(pa, [pc, pb]) == [pc, pb, pa];
    }
  }

  /** The example is listed newest first. */
  lemma ExampleListing(readingTime: string -> string)
    ensures var files := ExampleFiles();
      AllPosts(files, readingTime) ==
        [Normalise(files[2], readingTime), Normalise(files[1], readingTime), Normalise(files[0], readingTime)]
  {
    var files := ExampleFiles();
    var pa, pb, pc := Normalise(files[0], readingTime), Normalise(files[1], readingTime), Normalise(files[2], readingTime);
    ExampleIndex(readingTime);
    assert pa.date == "2024-01-01" && pb.date == "2024-02-01" && pc.date == "2024-03-01";
    SortThree(pa, pb, pc);
  }

  /** Filtering the example by `Y` keeps the two posts tagged `y`, newest first. */
  lemma ExampleByTag(readingTime: string -> string)
    ensures var files := ExampleFiles();
      PostsByTag(files, readingTime, "Y") == [Normalise(files[2], readingTime), Normalise(files[1], readingTime)]
  {
    var files := ExampleFiles();
    var pa, pb, pc := Normalise(files[0], readingTime), Normalise(files[1], readingTime), Normalise(files[2], readingTime);
    ExampleListing(readingTime);
    assert pa.tags == ["x"] && pb.tags == ["x", "y"] && pc.tags == ["y"];
    ExampleTagMatch(pa, pb, pc, readingTime);
    ExampleTagFilter(pa, pb, pc);
    assert PostsByTag(files, readingTime, "Y") == Filter([pc, pb, pa], TaggedIgnoringCase("Y"));
  }

  lemma ExampleTagFilter(pa: Post, pb: Post, pc: Post)
    requires !HasTagIgnoringCase(pa, "Y") && HasTagIgnoringCase(pb, "Y") && HasTagIgnoringCase(pc, "Y")
    ensures Filter([pc, pb, pa], TaggedIgnoringCase("Y")) == [pc, pb]
  {
    FilterOfThree(pc, pb, pa, TaggedIgnoringCase("Y"));
  }

  lemma ExampleTagMatch(pa: Post, pb: Post, pc: Post, readingTime: string -> string)
    requires pa.tags == ["x"] && pb.tags == ["x", "y"] && pc.tags == ["y"]
    ensures !HasTagIgnoringCase(pa, "Y") && HasTagIgnoringCase(pb, "Y") && HasTagIgnoringCase(pc, "Y")
  {
    assert Lower("Y") == "y" && Lower("x") == "x" && Lower("y") == "y";
    HasTagIgnoringCaseMeans(pa, "Y");
    HasTagIgnoringCaseMeans(pb, "Y");
    HasTagIgnoringCaseMeans(pc, "Y");
    assert "y" in pb.tags && "y" in pc.tags;
  }

  /** The posts related to the newest example post by tag `y`: the tag match
      first, then the remaining post as backfill. */
  lemma ExampleRelated(readingTime: string -> string)
    ensures var files := ExampleFiles();
      RelatedPosts(files, readingTime, "c", ["y"], 3) == [Normalise(files[1], readingTime), Normalise(files[0], readingTime)]
  {
    var files := ExampleFiles();
    var pa, pb, pc := Normalise(files[0], readingTime), Normalise(files[1], readingTime), Normalise(files[2], readingTime);
    RelatedPostsArePartitionPrefix(files, readingTime, "c", ["y"], 3);
    var all := AllPosts(files, readingTime);
    var related := RelatedPosts(files, readingTime, "c", ["y"], 3);
    assert related == Take(Matching(Others(all, "c"), ["y"]) + NotMatching(Others(all, "c"), ["y"]), 3);
    ExampleListing(readingTime);
    assert all == [pc, pb, pa];
    ExampleSlugs(readingTime);
    assert pa.tags == ["x"] && pb.tags == ["x", "y"];
    ExampleRelatedSelection(pa, pb, pc);
  }

  lemma ExampleSlugs(readingTime: string -> string)
    ensures var files := ExampleFiles();
      && Normalise(files[0], readingTime).slug == "a"
      && Normalise(files[1], readingTime).slug == "b"
      && Normalise(files[2], readingTime).slug == "c"
  {
    SlugOfFileName("a");
    SlugOfFileName("b");
    SlugOfFileName("c");
    assert ExampleFiles()[0].name == "a" + PostExtension;
    assert ExampleFiles()[1].name == "b" + PostExtension;
    assert ExampleFiles()[2].name == "c" + PostExtension;
  }

  lemma ExampleRelatedSelection(pa: Post, pb: Post, pc: Post)
    requires pa.slug == "a" && pb.slug == "b" && pc.slug == "c"
    requires pa.tags == ["x"] && pb.tags == ["x", "y"]
    ensures Take(Matching(Others([pc, pb, pa], "c"), ["y"]) + NotMatching(Others([pc, pb, pa], "c"), ["y"]), 3) == [pb, pa]
  {
    assert "y" in pb.tags;
    assert SharesTag(pb, ["y"]) && !SharesTag(pa, ["y"]);
    FilterOfThree(pc, pb, pa, SlugIsNot("c"));
    assert Others([pc, pb, pa], "c") == [pb, pa];
    FilterAppend([pb], [pa], SharingTag(["y"]));
    FilterAppend([pb], [pa], NotSharingTag(["y"]));
    assert [pb] + [pa] == [pb, pa];
    assert Filter([pb], SharingTag(["y"])) == [pb] && Filter([pa], SharingTag(["y"])) == [];
    assert Filter([pb], NotSharingTag(["y"])) == [] && Filter([pa], NotSharingTag(["y"])) == [pa];
  }

  /** Filtering a three-element list, element by element. */
  lemma FilterOfThree(x: Post, y: Post, z: Post, keep: Post -> bool)
    ensures Filter([x, y, z], keep) ==
      (if keep(x) then [x] else []) + (if keep(y) then [y] else []) + (if keep(z) then [z] else [])
  {
    FilterAppend([x], [y, z], keep);
    FilterAppend([y], [z], keep);
    assert [x] + [y, z] == [x, y, z] && [y] + [z] == [y, z];
  }
}
