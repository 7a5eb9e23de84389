/**
 * The project showcase: the built-in fallback list, the filter labels derived
 * from the projects' categories, the stable category filter, and the two
 * pieces of UI state around them (the selected label and the per-card hover
 * flags).
 */
module ProjectsGrid {
  import opened Wrappers
  import opened InsertionOrderedSet

  /** One showcase entry; `category` is a single label. */
  datatype Project = Project(
    id: string,
    title: string,
    description: string,
    category: string,
    image: string,
    demoUrl: Option<string>,
    githubUrl: Option<string>)

  /** The sentinel filter label that shows every project. */
  const AllLabel: string := "All"

  /** The built-in project at position `n` (0-based) of the fallback list;
      it carries the id `n + 1`. */
  function DefaultProject(n: nat): Project
    requires n < 6
  {
    if n == 0 then
      Project("1", "E-Commerce Website",
              "A fully responsive e-commerce platform built with React and Node.js",
              "Web Development",
              "https://images.unsplash.com/photo-1661956602116-aa6865609028?w=800&q=80",
              Some("https://example.com"), Some("https://github.com"))
    else if n == 1 then
      Project("2", "Mobile Banking App",
              "A secure and intuitive banking application for iOS and Android",
              "Mobile",
              "https://images.unsplash.com/photo-1563986768609-322da13575f3?w=800&q=80",
              Some("https://example.com"), Some("https://github.com"))
    else if n == 2 then
      Project("3", "Portfolio Design System",
              "A comprehensive design system with reusable components",
              "Design",
              "https://images.unsplash.com/photo-1634942537034-2531766767d1?w=800&q=80",
              Some("https://example.com"), Some("https://github.com"))
    else if n == 3 then
      Project("4", "Task Management Dashboard",
              "A productivity tool for teams to manage projects and tasks",
              "Web Development",
              "https://images.unsplash.com/photo-1531403009284-440f080d1e12?w=800&q=80",
              Some("https://example.com"), Some("https://github.com"))
    else if n == 4 then
      Project("5", "Fitness Tracking App",
              "A mobile application to track workouts and nutrition",
              "Mobile",
              "https://images.unsplash.com/photo-1576678927484-cc907957088c?w=800&q=80",
              Some("https://example.com"), Some("https://github.com"))
    else
      Project("6", "Brand Identity Package",
              "A complete brand identity design for a startup company",
              "Design",
              "https://images.unsplash.com/photo-1634942537034-2531766767d1?w=800&q=80",
              Some("https://example.com"), Some("https://github.com"))
  }

  /** The six projects shown when the caller supplies none. */
  function DefaultProjects(): (r: seq<Project>)
    ensures |r| == 6
    ensures forall n :: 0 <= n < 6 ==> r[n] == DefaultProject(n)
  {
    seq(6, n requires 0 <= n < 6 => DefaultProject(n))
  }

  /** The list the grid works on: the supplied projects, or the defaults when
      none are supplied (an omitted prop arrives as the empty list). */
  function AllProjects(projects: seq<Project>): (r: seq<Project>)
    ensures |projects| > 0 ==> r == projects
    ensures |projects| == 0 ==> r == DefaultProjects()
    ensures |r| > 0
  {
    if |projects| > 0 then projects else DefaultProjects()
  }

  /** The category of every project, in list order. */
  function CategoryColumn(all: seq<Project>): (r: seq<string>)
    ensures |r| == |all|
    ensures forall i :: 0 <= i < |all| ==> r[i] == all[i].category
  {
    seq(|all|, i requires 0 <= i < |all| => all[i].category)
  }

  /** The filter labels: the sentinel first, then each category once, in
      order of first appearance. */
  function Categories(all: seq<Project>): (r: seq<string>)
    ensures |r| >= 1 && r[0] == AllLabel
    ensures Distinct(r[1..])
    ensures forall c :: c in r[1..] <==> exists p :: p in all && p.category == c
  {
    var labels := CategoryColumn(all);
    var r := [AllLabel] + Unique(labels);
    assert r[1..] == Unique(labels);
    forall c ensures c in labels <==> exists p :: p in all && p.category == c {
      if c in labels {
        var i :| 0 <= i < |labels| && labels[i] == c;
        assert all[i] in all;
      }
    }
    r
  }

  /** There is one label per distinct category, plus the sentinel. */
  lemma CategoriesCount(all: seq<Project>)
    ensures |Categories(all)| == 1 + |set p | p in all :: p.category|
  {
    var labels := CategoryColumn(all);
    assert Categories(all)[1..] == Unique(labels);
    UniqueCardinality(labels);
    forall c ensures c in labels <==> c in (set p | p in all :: p.category) {
      if c in labels {
        var i :| 0 <= i < |labels| && labels[i] == c;
        assert all[i] in all;
      }
    }
    assert (set x | x in labels) == (set p | p in all :: p.category);
  }

  /** The labels after the sentinel follow the order in which their categories
      first appear in the project list. */
  lemma CategoriesFirstAppearanceOrder(all: seq<Project>)
    ensures forall i, j :: 1 <= i < j < |Categories(all)| ==>
              FirstIndex(CategoryColumn(all), Categories(all)[i])
                < FirstIndex(CategoryColumn(all), Categories(all)[j])
  {
    var labels := CategoryColumn(all);
    UniqueFirstAppearanceOrder(labels);
    assert Categories(all)[1..] == Unique(labels);
    forall i, j | 1 <= i < j < |Categories(all)|
      ensures FirstIndex(labels, Categories(all)[i]) < FirstIndex(labels, Categories(all)[j])
    {
      assert Categories(all)[i] == Unique(labels)[i - 1];
      assert Categories(all)[j] == Unique(labels)[j - 1];
    }
  }

  /** A project whose category is literally "All" makes the sentinel appear a
      second time: nothing removes it before the labels are joined. */
  lemma AllLabelRepeated(all: seq<Project>)
    requires exists p :: p in all && p.category == AllLabel
    ensures multiset(Categories(all))[AllLabel] == 2
  {
    var r := Categories(all);
    assert r == [AllLabel] + r[1..];
    DistinctOccursOnce(r[1..], AllLabel);
  }

  /** The categories of the built-in projects, in list order. */
  lemma DefaultCategoryColumn()
    ensures CategoryColumn(DefaultProjects())
              == ["Web Development", "Mobile", "Design", "Web Development", "Mobile", "Design"]
  {
    var labels := CategoryColumn(DefaultProjects());
    assert labels[0] == DefaultProject(0).category == "Web Development";
    assert labels[1] == DefaultProject(1).category == "Mobile";
    assert labels[2] == DefaultProject(2).category == "Design";
    assert labels[3] == DefaultProject(3).category == "Web Development";
    assert labels[4] == DefaultProject(4).category == "Mobile";
    assert labels[5] == DefaultProject(5).category == "Design";
  }

  /** Projects whose categories run through three distinct labels twice get
      the filter bar "All" followed by those three. */
  lemma CategoriesOfRepeatedTriple(all: seq<Project>, w: string, m: string, d: string)
    requires w != m && w != d && m != d
    requires CategoryColumn(all) == [w, m, d, w, m, d]
    ensures Categories(all) == [AllLabel, w, m, d]
  {
    var once := [w, m, d];
    assert [w, m, d, w, m, d] == once + once;
    UniqueAppendPresent(once, once);
    UniqueOfDistinct(once);
    assert [AllLabel] + once == [AllLabel, w, m, d];
  }

  /** With the built-in projects the filter bar reads All, Web Development,
      Mobile, Design. */
  lemma DefaultCategories()
    ensures Categories(DefaultProjects()) == ["All", "Web Development", "Mobile", "Design"]
  {
    DefaultCategoryColumn();
    CategoriesOfRepeatedTriple(DefaultProjects(), "Web Development", "Mobile", "Design");
  }

  /** `sub` is `s` with some elements dropped and the rest in their original order. */
  predicate SubsequenceOf<T(==)>(sub: seq<T>, s: seq<T>)
    decreases |s|
  {
    if |sub| == 0 then true
    else if |s| == 0 then false
    else if sub[0] == s[0] then SubsequenceOf(sub[1..], s[1..])
    else SubsequenceOf(sub, s[1..])
  }

  /** The projects whose category equals `choice`, kept in list order (the
      array filter with string equality). */
  function WithCategory(all: seq<Project>, choice: string): (r: seq<Project>)
    ensures |r| <= |all|
    ensures forall p :: p in r <==> p in all && p.category == choice
  {
    if |all| == 0 then []
    else (if all[0].category == choice then [all[0]] else []) + WithCategory(all[1..], choice)
  }

  /** The filter keeps the matching projects in their original order. */
  lemma {:induction false} WithCategoryIsSubsequence(all: seq<Project>, choice: string)
    ensures SubsequenceOf(WithCategory(all, choice), all)
  {
    if |all| > 0 {
      WithCategoryIsSubsequence(all[1..], choice);
      var rest := WithCategory(all[1..], choice);
      if all[0].category == choice {
        assert WithCategory(all, choice) == [all[0]] + rest;
        assert ([all[0]] + rest)[1..] == rest;
      } else {
        assert WithCategory(all, choice) == rest;
        SubsequenceSkip(rest, all);
      }
    }
  }

  /** Dropping the head of `s` keeps a subsequence of its tail a subsequence of `s`. */
  lemma {:induction false} SubsequenceSkip<T>(sub: seq<T>, s: seq<T>)
    requires |s| > 0
    requires SubsequenceOf(sub, s[1..])
    ensures SubsequenceOf(sub, s)
    decreases |s|, 0
  {
    if |sub| > 0 && sub[0] == s[0] {
      // `sub` starts with s[0]: match it there, the rest of `sub` lies in s[1..] too
      SubsequenceTail(sub, s[1..]);
    }
  }

  /** Removing the first element of a subsequence leaves a subsequence. */
  lemma {:induction false} SubsequenceTail<T>(sub: seq<T>, s: seq<T>)
    requires |sub| > 0
    requires SubsequenceOf(sub, s)
    ensures SubsequenceOf(sub[1..], s)
    decreases |s|, 1
  {
    if sub[0] == s[0] {
      if |sub[1..]| > 0 {
        SubsequenceSkip(sub[1..], s);
      }
    } else {
      SubsequenceTail(sub, s[1..]);
      if |sub[1..]| > 0 {
        SubsequenceSkip(sub[1..], s);
      }
    }
  }

  /** Every matching project keeps its multiplicity; every other one is gone. */
  lemma {:induction false} WithCategoryCounts(all: seq<Project>, choice: string, p: Project)
    ensures multiset(WithCategory(all, choice))[p]
              == if p.category == choice then multiset(all)[p] else 0
  {
    if |all| > 0 {
      WithCategoryCounts(all[1..], choice, p);
      assert all == [all[0]] + all[1..];
      assert multiset(all) == multiset([all[0]]) + multiset(all[1..]);
      var head := if all[0].category == choice then [all[0]] else [];
      assert WithCategory(all, choice) == head + WithCategory(all[1..], choice);
      assert multiset(WithCategory(all, choice)) == multiset(head) + multiset(WithCategory(all[1..], choice));
    }
  }

  /** Filtering a concatenation filters each part. */
  lemma {:induction false} WithCategoryAppend(a: seq<Project>, b: seq<Project>, choice: string)
    ensures WithCategory(a + b, choice) == WithCategory(a, choice) + WithCategory(b, choice)
  {
    if |a| > 0 {
      assert (a + b)[0] == a[0];
      assert (a + b)[1..] == a[1..] + b;
      WithCategoryAppend(a[1..], b, choice);
    } else {
      assert a + b == b;
    }
  }

  /** The projects the grid renders for the selected label: all of them for
      the sentinel, otherwise the ones of that category. */
  function FilteredProjects(all: seq<Project>, selected: string): (r: seq<Project>)
    ensures selected == AllLabel ==> r == all
    ensures selected != AllLabel ==>
              forall p :: p in r <==> p in all && p.category == selected
    ensures selected != AllLabel ==> r == WithCategory(all, selected)
    ensures |r| <= |all|
  {
    if selected == AllLabel then all else WithCategory(all, selected)
  }

  /** A filter button never empties the grid: each label after the sentinel
      came from some project, and the sentinel shows the whole list. */
  lemma EveryFilterButtonShowsProjects(all: seq<Project>, choice: string)
    requires |all| > 0
    requires choice in Categories(all)
    ensures |FilteredProjects(all, choice)| > 0
  {
  }

  /** A user gesture on the showcase: a filter-button click, or the pointer
      entering or leaving the card of the project with `cardId`. */
  datatype Event =
    | SelectCategory(choice: string)
    | MouseEnter(cardId: string)
    | MouseLeave(cardId: string)

  /** The showcase's state: the selected filter label and the ids of the
      cards whose hover flag is set. */
  datatype GridState = GridState(selectedCategory: string, hovered: set<string>)

  /** The ids of the cards rendered for a selected label. */
  function RenderedIds(all: seq<Project>, selected: string): (ids: set<string>)
    ensures forall id :: id in ids <==> exists p :: p in FilteredProjects(all, selected) && p.id == id
  {
    set p | p in FilteredProjects(all, selected) :: p.id
  }

  /** On mount nothing is hovered and the sentinel is selected. */
  function Init(): (s: GridState)
    ensures s.selectedCategory == AllLabel
    ensures s.hovered == {}
  {
    GridState(AllLabel, {})
  }

  /** Only rendered controls receive events: a click names a label of the
      filter bar, a pointer event a card that is on screen. */
  predicate Enabled(all: seq<Project>, s: GridState, e: Event)
  {
    match e
    case SelectCategory(choice) => choice in Categories(all)
    case MouseEnter(id) => id in RenderedIds(all, s.selectedCategory)
    case MouseLeave(id) => id in RenderedIds(all, s.selectedCategory)
  }

  /** One gesture. A click selects its button's label; the cards that the new
      filter no longer renders are unmounted and lose their hover flag, the
      others keep it. Pointer events set or clear one card's flag and leave
      the selection alone. */
  function Step(all: seq<Project>, s: GridState, e: Event): (r: GridState)
    requires Enabled(all, s, e)
    ensures e.SelectCategory? ==> r.selectedCategory == e.choice
    ensures e.SelectCategory? ==> r.hovered <= s.hovered
    ensures e.SelectCategory? ==>
              forall id :: id in RenderedIds(all, e.choice) ==> (id in r.hovered <==> id in s.hovered)
    ensures !e.SelectCategory? ==> r.selectedCategory == s.selectedCategory
    ensures e.MouseEnter? ==> e.cardId in r.hovered
    ensures e.MouseLeave? ==> e.cardId !in r.hovered
    ensures !e.SelectCategory? ==>
              forall id :: id != e.cardId ==> (id in r.hovered <==> id in s.hovered)
  {
    match e
    case SelectCategory(choice) =>
      GridState(choice, s.hovered * RenderedIds(all, choice))
    case MouseEnter(id) => s.(hovered := s.hovered + {id})
    case MouseLeave(id) => s.(hovered := s.hovered - {id})
  }

  /** Every gesture of `events` is enabled in the state it reaches. */
  predicate Admissible(all: seq<Project>, s: GridState, events: seq<Event>)
    decreases |events|
  {
    |events| == 0 ||
    (Enabled(all, s, events[0]) && Admissible(all, Step(all, s, events[0]), events[1..]))
  }

  /** The state after a sequence of gestures. */
  function Run(all: seq<Project>, s: GridState, events: seq<Event>): GridState
    requires Admissible(all, s, events)
    decreases |events|
  {
    if |events| == 0 then s else Run(all, Step(all, s, events[0]), events[1..])
  }

  /** The label of the last click in `events`, or `current` when there is none. */
  function LastSelection(current: string, events: seq<Event>): string
    decreases |events|
  {
    if |events| == 0 then current
    else LastSelection(if events[0].SelectCategory? then events[0].choice else current, events[1..])
  }

  /** The selection changes only through clicks: after any gestures it is the
      label of the last click, or what it was before if nobody clicked. */
  lemma {:induction false} SelectionIsLastClick(all: seq<Project>, s: GridState, events: seq<Event>)
    requires Admissible(all, s, events)
    ensures Run(all, s, events).selectedCategory == LastSelection(s.selectedCategory, events)
    decreases |events|
  {
    if |events| > 0 {
      SelectionIsLastClick(all, Step(all, s, events[0]), events[1..]);
    }
  }

  /** The showcase invariant: the selection is a label of the filter bar and
      only rendered cards are hovered. */
  predicate Valid(all: seq<Project>, s: GridState)
  {
    && s.selectedCategory in Categories(all)
    && s.hovered <= RenderedIds(all, s.selectedCategory)
  }

  /** Every gesture keeps the invariant. */
  lemma StepPreservesValid(all: seq<Project>, s: GridState, e: Event)
    requires Valid(all, s)
    requires Enabled(all, s, e)
    ensures Valid(all, Step(all, s, e))
  {
  }

  /** The invariant holds in every state reachable from mount. */
  lemma {:induction false} RunPreservesValid(all: seq<Project>, s: GridState, events: seq<Event>)
    requires Valid(all, s)
    requires Admissible(all, s, events)
    ensures Valid(all, Run(all, s, events))
    decreases |events|
  {
    if |events| > 0 {
      StepPreservesValid(all, s, events[0]);
      RunPreservesValid(all, Step(all, s, events[0]), events[1..]);
    }
  }

  /** Whatever the user clicks or hovers, the grid always shows at least one
      card: the list it filters is never empty. */
  lemma ReachableGridNonEmpty(projects: seq<Project>, events: seq<Event>)
    requires Admissible(AllProjects(projects), Init(), events)
    ensures |FilteredProjects(AllProjects(projects),
                              Run(AllProjects(projects), Init(), events).selectedCategory)| > 0
  {
    var all := AllProjects(projects);
    assert Categories(all)[0] == AllLabel;
    assert Valid(all, Init());
    RunPreservesValid(all, Init(), events);
    EveryFilterButtonShowsProjects(all, Run(all, Init(), events).selectedCategory);
  }
}
