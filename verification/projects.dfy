/**
 * The projects section: a fixed list of four projects keyed by `id`, and a
 * category filter whose initial tag is "all".
 */
module Projects {
  import opened Wrappers
  import opened CategoryFilter

  datatype Project = Project(
    id: int,
    title: string,
    description: string,
    technologies: seq<string>,
    category: string,
    image: string,
    link: Option<string>,
    github: Option<string>)

  function CategoryOf(p: Project): string { p.category }

  function IdOf(p: Project): int { p.id }

  const Placeholder: string := "/placeholder.svg?height=300&width=400"

  const AllProjects: seq<Project> := [
    Project(1, "Data Visualization Dashboard",
      "Interactive dashboard for analyzing sales data with real-time updates and predictive analytics.",
      ["Python", "Plotly", "Pandas", "Streamlit"], "data", Placeholder, None, None),
    Project(2, "E-commerce Platform",
      "Full-stack e-commerce solution with payment integration and inventory management.",
      ["React", "Node.js", "MongoDB", "Stripe"], "web", Placeholder, None, None),
    Project(3, "Machine Learning Model",
      "Predictive model for customer behavior analysis using advanced ML algorithms.",
      ["Python", "Scikit-learn", "TensorFlow", "Jupyter"], "ml", Placeholder, None, None),
    Project(4, "Portfolio Website",
      "Responsive portfolio website with modern design and smooth animations.",
      ["React", "TypeScript", "Tailwind CSS", "Framer Motion"], "web", Placeholder, None, None)
  ]

  /** The filter buttons, in display order; the first one is "all". */
  const Categories: seq<string> := ["all", "web", "data", "ml"]

  /** The tag selected when the section mounts. */
  const InitialFilter: string := "all"

  /** The projects the grid renders for the active filter. */
  function FilteredProjects(active: string): (r: seq<Project>)
    ensures active == AllTag ==> r == AllProjects
    ensures active != AllTag ==> forall p :: p in r ==> p in AllProjects && p.category == active
    ensures active != AllTag ==> forall p :: p in AllProjects && p.category == active ==> p in r
    ensures active != AllTag ==> |r| == CountCategory(AllProjects, CategoryOf, active)
  {
    View(AllProjects, CategoryOf, active)
  }

  /** Ids of a list of projects, in order. */
  function Ids(ps: seq<Project>): (r: seq<int>)
    ensures |r| == |ps|
    ensures forall i :: 0 <= i < |ps| ==> r[i] == ps[i].id
  {
    seq(|ps|, i requires 0 <= i < |ps| => ps[i].id)
  }

  /** The grid keeps the projects in their declared order. */
  lemma FilteredProjectsInOrder(active: string)
    ensures IsSubsequence(FilteredProjects(active), AllProjects)
  {
    if active != AllTag {
      KeepIsSubsequence(AllProjects, CategoryOf, active);
    } else {
      SubsequenceReflexive(AllProjects);
    }
  }

  /** On mount the grid shows all four projects, in the declared order. */
  lemma InitialViewIsEverything()
    ensures FilteredProjects(InitialFilter) == AllProjects
    ensures Ids(FilteredProjects(InitialFilter)) == [1, 2, 3, 4]
  {
  }

  lemma Tails()
    ensures AllProjects[0..] == AllProjects
    ensures AllProjects[0..][1..] == AllProjects[1..]
    ensures AllProjects[1..][1..] == AllProjects[2..]
    ensures AllProjects[2..][1..] == AllProjects[3..]
    ensures AllProjects[3..][1..] == []
  {
  }

  lemma KeepWeb()
    ensures Keep(AllProjects, CategoryOf, "web") == [AllProjects[1], AllProjects[3]]
  {
    Tails();
    assert Keep(AllProjects[3..], CategoryOf, "web") == [AllProjects[3]];
    assert Keep(AllProjects[2..], CategoryOf, "web") == [AllProjects[3]];
    assert Keep(AllProjects[1..], CategoryOf, "web") == [AllProjects[1], AllProjects[3]];
  }

  lemma KeepData()
    ensures Keep(AllProjects, CategoryOf, "data") == [AllProjects[0]]
  {
    Tails();
    assert Keep(AllProjects[3..], CategoryOf, "data") == [];
    assert Keep(AllProjects[2..], CategoryOf, "data") == [];
    assert Keep(AllProjects[1..], CategoryOf, "data") == [];
  }

  lemma KeepMl()
    ensures Keep(AllProjects, CategoryOf, "ml") == [AllProjects[2]]
  {
    Tails();
    assert Keep(AllProjects[3..], CategoryOf, "ml") == [];
    assert Keep(AllProjects[2..], CategoryOf, "ml") == [AllProjects[2]];
    assert Keep(AllProjects[1..], CategoryOf, "ml") == [AllProjects[2]];
  }

  /** "web" shows projects 2 then 4; "ml" shows project 3 only. */
  lemma FilterScenarios()
    ensures Ids(FilteredProjects("web")) == [2, 4]
    ensures Ids(FilteredProjects("ml")) == [3]
    ensures Ids(FilteredProjects("data")) == [1]
  {
    KeepWeb();
    KeepData();
    KeepMl();
  }

  /** Ids are pairwise distinct, so they are sound React keys in every view. */
  lemma IdsAreKeys(active: string)
    ensures DistinctBy(AllProjects, IdOf)
    ensures DistinctBy(FilteredProjects(active), IdOf)
  {
    assert DistinctBy(AllProjects, IdOf);
    FilteredProjectsInOrder(active);
    SubsequenceKeepsDistinct(FilteredProjects(active), AllProjects, IdOf);
  }

  /**
   * Every non-"all" button matches at least one project, and the buttons'
   * views partition the list: their sizes add up to the four projects.
   */
  lemma CategoriesPartitionProjects()
    ensures forall i :: 1 <= i < |Categories| ==> |FilteredProjects(Categories[i])| >= 1
    ensures forall p :: p in AllProjects ==> p.category in Categories[1..]
    ensures SumCounts(AllProjects, CategoryOf, Categories[1..]) == |AllProjects| == 4
  {
    KeepWeb();
    KeepData();
    KeepMl();
    ProjectCategoriesListed();
    PartitionCount(AllProjects, CategoryOf, Categories[1..]);
  }

  lemma ProjectCategoriesListed()
    ensures forall p :: p in AllProjects ==> p.category in Categories[1..]
    ensures AllTag !in Categories[1..]
    ensures DistinctBy(Categories[1..], (t: string) => t)
  {
  }

  /**
   * Whatever filter buttons are clicked after mount, the active filter is
   * one of the buttons and the projects grid is never empty.
   */
  lemma ReachableGridNonEmpty(clicks: seq<int>)
    ensures SelectRun(Categories, InitialFilter, clicks) in Categories
    ensures |FilteredProjects(SelectRun(Categories, InitialFilter, clicks))| > 0
  {
    var tag := SelectRun(Categories, InitialFilter, clicks);
    SelectedStaysListed(Categories, InitialFilter, clicks);
    if tag != AllTag {
      KeepWeb();
      KeepData();
      KeepMl();
    }
  }
}
