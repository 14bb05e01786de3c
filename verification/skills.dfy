/**
 * The skills section: a fixed list of eight skills, a category filter whose
 * initial tag is "all", and a proficiency level used as a percentage width.
 */
module Skills {
  import opened CategoryFilter

  /** A skill card; the icon glyph and colour gradient are presentation only. */
  datatype Skill = Skill(name: string, level: int, category: string)

  function CategoryOf(s: Skill): string { s.category }

  const AllSkills: seq<Skill> := [
    Skill("Python", 85, "programming"),
    Skill("JavaScript", 80, "programming"),
    Skill("React", 75, "frontend"),
    Skill("HTML/CSS", 90, "frontend"),
    Skill("Power BI", 80, "data"),
    Skill("Data Analysis", 85, "data"),
    Skill("Machine Learning", 70, "data"),
    Skill("Git", 75, "tools")
  ]

  /** The filter buttons, in display order; the first one is "all". */
  const Categories: seq<string> := ["all", "programming", "frontend", "data", "tools"]

  /** The tag selected when the section mounts. */
  const InitialCategory: string := "all"

  /** The skills the grid renders for the active category. */
  function FilteredSkills(active: string): (r: seq<Skill>)
    ensures active == AllTag ==> r == AllSkills
    ensures active != AllTag ==> forall s :: s in r ==> s in AllSkills && s.category == active
    ensures active != AllTag ==> forall s :: s in AllSkills && s.category == active ==> s in r
    ensures active != AllTag ==> |r| == CountCategory(AllSkills, CategoryOf, active)
  {
    View(AllSkills, CategoryOf, active)
  }

  /** Names of a list of skills, in order. */
  function Names(ss: seq<Skill>): (r: seq<string>)
    ensures |r| == |ss|
    ensures forall i :: 0 <= i < |ss| ==> r[i] == ss[i].name
  {
    seq(|ss|, i requires 0 <= i < |ss| => ss[i].name)
  }

  /** The grid keeps the skills in their declared order. */
  lemma FilteredSkillsInOrder(active: string)
    ensures IsSubsequence(FilteredSkills(active), AllSkills)
  {
    if active != AllTag {
      KeepIsSubsequence(AllSkills, CategoryOf, active);
    } else {
      SubsequenceReflexive(AllSkills);
    }
  }

  /** On mount the grid shows every skill, in the declared order. */
  lemma InitialViewIsEverything()
    ensures FilteredSkills(InitialCategory) == AllSkills
    ensures |FilteredSkills(InitialCategory)| == 8
  {
  }

  lemma KeepData()
    ensures Keep(AllSkills, CategoryOf, "data") == [AllSkills[4], AllSkills[5], AllSkills[6]]
  {
  }

  lemma KeepProgramming()
    ensures Keep(AllSkills, CategoryOf, "programming") == AllSkills[..2]
  {
  }

  lemma KeepFrontend()
    ensures Keep(AllSkills, CategoryOf, "frontend") == AllSkills[2..4]
  {
  }

  lemma KeepTools()
    ensures Keep(AllSkills, CategoryOf, "tools") == [AllSkills[7]]
  {
  }

  lemma DataNames()
    ensures Names([AllSkills[4], AllSkills[5], AllSkills[6]]) == ["Power BI", "Data Analysis", "Machine Learning"]
  {
  }

  /** The "data" button shows Power BI, Data Analysis and Machine Learning, in that order. */
  lemma DataFilterScenario()
    ensures FilteredSkills("data") == [AllSkills[4], AllSkills[5], AllSkills[6]]
    ensures Names(FilteredSkills("data")) == ["Power BI", "Data Analysis", "Machine Learning"]
  {
    KeepData();
    DataNames();
  }

  /** Per-category counts: programming 2, frontend 2, data 3, tools 1. */
  lemma CategoryCounts()
    ensures |FilteredSkills("programming")| == 2
    ensures |FilteredSkills("frontend")| == 2
    ensures |FilteredSkills("data")| == 3
    ensures |FilteredSkills("tools")| == 1
  {
    KeepData();
    KeepProgramming();
    KeepFrontend();
    KeepTools();
  }

  /** A tag no filter button carries (e.g. a project category) yields an empty grid. */
  lemma UnknownTagIsEmpty(tag: string)
    requires tag !in Categories
    ensures FilteredSkills(tag) == []
  {
    var r := FilteredSkills(tag);
    if |r| > 0 {
      assert r[0] in r;
      SkillCategoriesListed();
      assert false;
    }
  }

  lemma SkillCategoriesListed()
    ensures forall s :: s in AllSkills ==> s.category in Categories[1..]
    ensures AllTag !in Categories[1..]
    ensures DistinctBy(Categories[1..], (t: string) => t)
  {
  }

  /**
   * Every skill belongs to a non-"all" button's category, so the filtered
   * views partition the list: their sizes add up to the eight skills.
   */
  lemma CategoriesPartitionSkills()
    ensures forall s :: s in AllSkills ==> s.category in Categories[1..]
    ensures SumCounts(AllSkills, CategoryOf, Categories[1..]) == |AllSkills| == 8
  {
    SkillCategoriesListed();
    PartitionCount(AllSkills, CategoryOf, Categories[1..]);
  }

  /** Each level is a valid percentage, since it becomes the bar's CSS width. */
  lemma LevelsArePercentages()
    ensures forall s :: s in AllSkills ==> 0 <= s.level <= 100
  {
  }

  /**
   * Whatever filter buttons are clicked after mount, the active tag is one
   * of the buttons and the skills grid is never empty.
   */
  lemma ReachableGridNonEmpty(clicks: seq<int>)
    ensures SelectRun(Categories, InitialCategory, clicks) in Categories
    ensures |FilteredSkills(SelectRun(Categories, InitialCategory, clicks))| > 0
  {
    SelectedStaysListed(Categories, InitialCategory, clicks);
    ButtonGridNonEmpty(SelectRun(Categories, InitialCategory, clicks));
  }

  /** Every button's grid shows at least one skill. */
  lemma ButtonGridNonEmpty(tag: string)
    requires tag in Categories
    ensures |FilteredSkills(tag)| > 0
  {
    assert tag == Categories[0] || tag == Categories[1] || tag == Categories[2]
        || tag == Categories[3] || tag == Categories[4];
    if tag == "programming" {
      KeepProgramming();
    } else if tag == "frontend" {
      KeepFrontend();
    } else if tag == "data" {
      KeepData();
    } else if tag == "tools" {
      KeepTools();
    }
  }
}
