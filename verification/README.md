# Portfolio showcase logic in Dafny

This project models the decision logic of a React single-page portfolio: the
project showcase grid, the skill-level badges of the skills section, and the
light/dark theme button. Everything is pure functions over immutable
datatypes; the React state slots become explicit state records with
transition functions, and the browser (localStorage, `matchMedia`, the
document root's class list) becomes explicit inputs and outputs.

Modules:

- `Wrappers` (`wrappers.dfy`): `Option`, for absent props, contexts and storage entries.
- `InsertionOrderedSet` (`insertion_ordered_set.dfy`): a sequence read as a
  JavaScript `Set` built from an array and spread back into one. `Unique`
  keeps each value once, at its first insertion. It is proved duplicate-free,
  to have the same values as its input, to follow first-appearance order, and
  to have one entry per distinct value.
- `ProjectsGrid` (`projects_grid.dfy`): the six built-in projects and the
  fallback to them, the filter labels (`"All"` first, then each category once),
  the stable filter by single-string category, and the showcase state. That
  state is the selected label plus the set of ids of hovered cards, driven by
  click and pointer events. A filter change unmounts the cards the new filter
  no longer renders; React reconciles cards by their `id` key, so an unmounted
  card loses its hover flag and a card that stays keeps it. The state machine
  is proved to keep the selection among the filter labels and the hovered
  cards among the rendered ones. As long as the `projects` prop stays the
  same for the component's lifetime (the pages that mount the grid pass none),
  the grid is proved never to be empty in any reachable state.
- `SkillsSection` (`skills_section.dfy`): the four-tier level classifier, the
  lower-cased tab values, the default tab and the built-in skill data.
- `ThemeToggle` (`theme_toggle.dfy`): the initial theme, the mount effect,
  the apply effect, the mount sequence, the click handler and the button's
  accessible texts.

## Model

| member | source | states |
|---|---|---|
| `InsertionOrderedSet.Unique` | src/components/ProjectsGrid.tsx:94 | a `Set` built from a list holds exactly the list's values, each once |
| `InsertionOrderedSet.UniqueSnoc` | src/components/ProjectsGrid.tsx:94 | inserting a value already present changes nothing; a new value goes to the end |
| `InsertionOrderedSet.UniqueOfDistinct` | src/components/ProjectsGrid.tsx:94 | a list without duplicates comes out of the `Set` unchanged |
| `InsertionOrderedSet.UniqueAppendPresent` | src/components/ProjectsGrid.tsx:94 | inserting values that are all present already leaves the `Set` unchanged |
| `InsertionOrderedSet.UniqueFirstAppearanceOrder` | src/components/ProjectsGrid.tsx:94 | the `Set`'s values come in the order of their first appearance in the list |
| `InsertionOrderedSet.UniqueCardinality` | src/components/ProjectsGrid.tsx:94 | the `Set` has as many entries as the list has distinct values |
| `ProjectsGrid.AllProjects` | src/components/ProjectsGrid.tsx:22-89 | a non-empty `projects` prop is used unchanged; an empty or omitted one gives the six built-in projects; the grid's list is never empty |
| `ProjectsGrid.DefaultCategoryColumn` | src/components/ProjectsGrid.tsx:24-87 | the built-in projects' categories are Web Development, Mobile, Design, Web Development, Mobile, Design |
| `ProjectsGrid.Categories` | src/components/ProjectsGrid.tsx:92-95 | the labels start with "All"; the rest are pairwise distinct and are exactly the projects' categories |
| `ProjectsGrid.CategoriesCount` | src/components/ProjectsGrid.tsx:92-95 | there are 1 + (number of distinct project categories) labels |
| `ProjectsGrid.CategoriesFirstAppearanceOrder` | src/components/ProjectsGrid.tsx:92-95 | the labels after "All" follow the order in which each category first appears among the projects |
| `ProjectsGrid.AllLabelRepeated` | src/components/ProjectsGrid.tsx:92-95 | a project whose category is literally "All" makes "All" occur exactly twice among the labels |
| `ProjectsGrid.CategoriesOfRepeatedTriple` | src/components/ProjectsGrid.tsx:92-95 | projects whose categories run through three distinct labels twice get the labels "All" and those three, in order |
| `ProjectsGrid.DefaultCategories` | src/components/ProjectsGrid.tsx:24-95 | with the built-in projects the filter labels are All, Web Development, Mobile, Design |
| `ProjectsGrid.WithCategory` | src/components/ProjectsGrid.tsx:103 | the filter keeps exactly the projects whose category equals the label, and is no longer than its input |
| `ProjectsGrid.WithCategoryIsSubsequence` | src/components/ProjectsGrid.tsx:103 | the filter's result is an order-preserving subsequence of the projects |
| `ProjectsGrid.WithCategoryCounts` | src/components/ProjectsGrid.tsx:103 | each matching project keeps its multiplicity, every other project is dropped |
| `ProjectsGrid.WithCategoryAppend` | src/components/ProjectsGrid.tsx:103 | filtering a concatenation is concatenating the filtered parts (order is never rearranged) |
| `ProjectsGrid.FilteredProjects` | src/components/ProjectsGrid.tsx:100-103 | "All" gives the list unchanged; any other label gives the category filter `WithCategory` (exactly the projects of that category, in list order, with their multiplicities); never longer than the list |
| `ProjectsGrid.EveryFilterButtonShowsProjects` | src/components/ProjectsGrid.tsx:89-122 | filtering by any label of the filter bar leaves at least one project |
| `ProjectsGrid.RenderedIds` | src/components/ProjectsGrid.tsx:137-138 | the rendered card keys are exactly the ids of the rendered projects |
| `ProjectsGrid.Init` | src/components/ProjectsGrid.tsx:97 | the selection starts as "All" and no card's hover flag is set |
| `ProjectsGrid.Step` | src/components/ProjectsGrid.tsx:118-164 | a click selects its button's label, keeps the hover flag of every card the new filter still renders and never sets a flag; pointer enter/leave sets/clears exactly that card's flag and keeps the selection |
| `ProjectsGrid.SelectionIsLastClick` | src/components/ProjectsGrid.tsx:97-122 | after any gestures the selection is the label of the last click, or unchanged when there was none |
| `ProjectsGrid.StepPreservesValid` | src/components/ProjectsGrid.tsx:118-164 | each gesture keeps the selection among the filter labels and the hovered cards among the rendered ones |
| `ProjectsGrid.RunPreservesValid` | src/components/ProjectsGrid.tsx:97-164 | that invariant holds after any sequence of gestures |
| `ProjectsGrid.ReachableGridNonEmpty` | src/components/ProjectsGrid.tsx:89-138 | with the projects prop unchanged since mount, in every reachable state the grid renders at least one card |
| `SkillsSection.SkillLevelLabel` | src/components/SkillsSection.tsx:108-113 | Expert iff level >= 90, Advanced iff 75 <= level < 90, Intermediate iff 50 <= level < 75, Beginner iff level < 50 (including 0 and negatives) |
| `SkillsSection.SkillLevelLabelMonotone` | src/components/SkillsSection.tsx:108-113 | a higher level never gets a lower badge |
| `SkillsSection.ToLower` | src/components/SkillsSection.tsx:60 | the tab value is the name lower-cased character by character, same length, with no upper-case letter left |
| `SkillsSection.DefaultTab` | src/components/SkillsSection.tsx:52-53 | for a non-empty category list the default tab is the first category's lower-cased name; an empty list (where reading the first entry fails while rendering) gives `None`, and only it does |
| `SkillsSection.DefaultLevelsArePercentages` | src/components/SkillsSection.tsx:115-149 | every built-in skill level lies in 0..100 |
| `SkillsSection.DefaultTabs` | src/components/SkillsSection.tsx:115-149 | the built-in tabs are frontend, backend and design, and frontend is open on mount |
| `ThemeToggle.InitialLocal` | src/components/ThemeToggle.tsx:13-15 | the first-render theme is the provider's theme if there is one, else light |
| `ThemeToggle.InitEffect` | src/components/ThemeToggle.tsx:18-28 | with a provider nothing changes; otherwise a stored "dark"/"light" is adopted, else system dark preference gives dark, else the theme is unchanged |
| `ThemeToggle.ApplyEffect` | src/components/ThemeToggle.tsx:31-41 | with a provider the document is untouched; otherwise the dark class is set iff the theme is dark and the stored entry names the theme |
| `ThemeToggle.Mount` | src/components/ThemeToggle.tsx:13-41 | mounting reads the stored entry from the same document it writes; the adopted theme is the provider's when present, else a stored "dark"/"light", else dark when the system prefers dark, else light; afterwards the document's class and stored entry agree with it; with a provider the document is untouched |
| `ThemeToggle.StoredThemeSurvivesReload` | src/components/ThemeToggle.tsx:18-41 | a theme stored by the apply effect is the one adopted when the button is mounted again on that document, whatever the system preference |
| `ThemeToggle.ToggleTheme` | src/components/ThemeToggle.tsx:43-49 | a click flips the provider's theme when present, otherwise the local theme, and nothing else |
| `ThemeToggle.ToggleTwiceIsIdentity` | src/components/ThemeToggle.tsx:43-49 | two clicks restore the state |
| `ThemeToggle.ToggleKeepsDocumentInSync` | src/components/ThemeToggle.tsx:31-49 | a click followed by the apply effect keeps the document in sync with the local theme |
| `ThemeToggle.CurrentTheme` | src/components/ThemeToggle.tsx:51 | the described theme is the provider's when present, else the local one |
| `ThemeToggle.AriaLabel` | src/components/ThemeToggle.tsx:59 | the aria-label is "Switch to <the other theme> mode" |
| `ThemeToggle.ScreenReaderText` | src/components/ThemeToggle.tsx:63-67 | the screen-reader text is "Switch to <the other theme> mode" |
| `ThemeToggle.ButtonTextsNameTheOpposite` | src/components/ThemeToggle.tsx:51-66 | the aria-label and the screen-reader text are equal and both name the theme a click switches to |

## Left out

- All JSX markup, Tailwind classes, framer-motion animation props and transition timings: presentation only.
- The hover-driven image scale and overlay opacity: only the boolean hover flag is kept.
- The demo and code links on each card: optional pass-through links with no logic.
- Skill icons and the progress bar: presentation only.
- The contact form, the page layout, the hero banner, the project card component used elsewhere, and app bootstrapping: no decision logic of the showcase, the skills badge or the theme button.
- The theme provider (`@/lib/theme-provider`) is not part of this model; its context is an optional theme value, and what it does with the DOM after `setTheme` is not modelled.
- The page that mounts the theme button passes it `theme` and `toggleTheme` props that the component does not declare or read; they are ignored here too.
- React's development-mode double invocation of effects, and re-running the mount effect when the provider context object changes identity.
- ProjectsGrid.ReachableGridNonEmpty: the projects list is fixed for the component's lifetime; the component recomputes its list and labels on every render but never resets the selection, so a re-render with a `projects` prop lacking the selected category would show an empty grid.
- ProjectsGrid.Step: the hover flags are kept per card id; two projects sharing an id (a React key clash) share one flag.
- ProjectsGrid.Step: requires the event to come from a rendered control (a filter label that is on the bar, a card that is on screen), since the page cannot deliver any other.
- SkillsSection.ToLower: lower-cases ASCII letters only, while JavaScript's `toLowerCase` maps all of Unicode.
- SkillsSection.SkillLevelLabel: levels are integers; the source's levels are JavaScript numbers, but all built-in data are integers and fractional levels are not modelled.
- ThemeToggle.ToggleTheme: themes are the two values light and dark; the source's `"dark" ? "light" : "dark"` sends any other string to dark, which its types exclude.
- Multi-category projects, a project detail view with a selection controller, and alternate-platform images with their toggles: the modelled code has none of these (a project has exactly one category string, matched by string equality), so they are not modelled.
