/**
 * The skills display: the level-to-label classifier shown on each skill's
 * badge, the tab values derived from category names, and the built-in skill
 * data. Icons and the progress bar are presentation only.
 */
module SkillsSection {
  import opened Wrappers

  datatype Skill = Skill(name: string, level: int)

  datatype SkillCategory = SkillCategory(name: string, skills: seq<Skill>)

  /** The badge text for a proficiency level, by descending thresholds 90, 75, 50. */
  function SkillLevelLabel(level: int): (r: string)
    ensures r == "Expert" <==> level >= 90
    ensures r == "Advanced" <==> 75 <= level < 90
    ensures r == "Intermediate" <==> 50 <= level < 75
    ensures r == "Beginner" <==> level < 50
  {
    if level >= 90 then "Expert"
    else if level >= 75 then "Advanced"
    else if level >= 50 then "Intermediate"
    else "Beginner"
  }

  /** The position of a badge text in the ladder Beginner < Intermediate < Advanced < Expert. */
  function Tier(badge: string): (t: nat)
    ensures t <= 3
  {
    if badge == "Expert" then 3
    else if badge == "Advanced" then 2
    else if badge == "Intermediate" then 1
    else 0
  }

  /** A higher level never earns a lower badge. */
  lemma SkillLevelLabelMonotone(a: int, b: int)
    requires a <= b
    ensures Tier(SkillLevelLabel(a)) <= Tier(SkillLevelLabel(b))
  {
  }

  /** ASCII lower-casing of one character. */
  function ToLowerChar(c: char): (r: char)
    ensures 'A' <= c <= 'Z' ==> r as int == c as int + 32
    ensures !('A' <= c <= 'Z') ==> r == c
    ensures !('A' <= r <= 'Z')
  {
    if 'A' <= c <= 'Z' then (c as int + 32) as char else c
  }

  /** ASCII lower-casing of a string, character by character. */
  function ToLower(s: string): (r: string)
    ensures |r| == |s|
    ensures forall i :: 0 <= i < |s| ==> r[i] == ToLowerChar(s[i])
    ensures forall i :: 0 <= i < |r| ==> !('A' <= r[i] <= 'Z')
  {
    seq(|s|, i requires 0 <= i < |s| => ToLowerChar(s[i]))
  }

  /** Lower-casing twice is lower-casing once. */
  lemma ToLowerIdempotent(s: string)
    ensures ToLower(ToLower(s)) == ToLower(s)
  {
  }

  /** The value a category's tab trigger and its content panel both carry. */
  function TabValue(category: SkillCategory): string
  {
    ToLower(category.name)
  }

  /** The tab selected on mount: the first category's value. Reading the
      first entry of an empty category list fails while rendering; that is the
      `None` case. */
  function DefaultTab(categories: seq<SkillCategory>): (r: Option<string>)
    ensures r.None? <==> |categories| == 0
    ensures r.Some? ==> r.value == TabValue(categories[0])
  {
    if |categories| == 0 then None else Some(TabValue(categories[0]))
  }

  /** The three built-in skill categories. */
  function DefaultCategories(): seq<SkillCategory>
  {
    [ SkillCategory("Frontend",
        [ Skill("React", 60), Skill("TypeScript", 60), Skill("Tailwind CSS", 80),
          Skill("Next.js", 50), Skill("HTML/CSS", 100), Skill("JavaScript", 90) ]),
      SkillCategory("Backend",
        [ Skill("Node.js", 80), Skill("Express", 80), Skill("PostgreSQL", 10),
          Skill("MongoDB", 80), Skill("GraphQL", 0), Skill("REST APIs", 90) ]),
      SkillCategory("Design",
        [ Skill("Figma", 90), Skill("UI/UX", 85), Skill("Responsive Design", 100),
          Skill("Wireframing", 90), Skill("Prototyping", 85), Skill("Design Systems", 80) ]) ]
  }

  /** Every built-in level is a percentage, as the progress bar expects. */
  lemma DefaultLevelsArePercentages()
    ensures forall c, k :: c in DefaultCategories() && 0 <= k < |c.skills| ==>
              0 <= c.skills[k].level <= 100
  {
  }

  /** With the built-in data the tabs are frontend, backend and design, all
      different, and frontend is open on mount. */
  lemma DefaultTabs()
    ensures DefaultTab(DefaultCategories()) == Some("frontend")
    ensures TabValue(DefaultCategories()[0]) == "frontend"
    ensures TabValue(DefaultCategories()[1]) == "backend"
    ensures TabValue(DefaultCategories()[2]) == "design"
  {
    assert ToLower("Frontend") == "frontend";
    assert ToLower("Backend") == "backend";
    assert ToLower("Design") == "design";
  }
}
