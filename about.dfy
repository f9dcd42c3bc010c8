/**
  The skills panel of the About section: skills grouped by category, a label and an icon per
  category, and the summary counts under the grid.
*/
module About {
  /** The `category` of a skill. */
  datatype Category = Frontend | Backend | Database | Tools | Other

  datatype Skill = Skill(name: string, category: Category)

  /** The key a category has in the component's dictionaries. */
  function CategoryKey(c: Category): string {
    match c
    case Frontend => "frontend"
    case Backend => "backend"
    case Database => "database"
    case Tools => "tools"
    case Other => "other"
  }

  /** `skillCategories`: the heading shown for each category. */
  function CategoryLabel(c: Category): string {
    match c
    case Frontend => "Frontend"
    case Backend => "Backend"
    case Database => "Database"
    case Tools => "Tools & DevOps"
    case Other => "Other"
  }

  /** Each category has its own key and its own heading; apart from tools, a heading differs from its key only in the first letter. */
  lemma CategoryNamesDistinct(a: Category, b: Category)
    ensures CategoryKey(a) == CategoryKey(b) <==> a == b
    ensures CategoryLabel(a) == CategoryLabel(b) <==> a == b
    ensures a != Tools ==> |CategoryLabel(a)| == |CategoryKey(a)| && CategoryLabel(a)[1..] == CategoryKey(a)[1..]
  {
  }

  /** The five icons of `getSkillIcon`. */
  datatype Icon = FrontendIcon | BackendIcon | DatabaseIcon | ToolsIcon | OtherIcon

  /**
    `getSkillIcon(category)`: the icon stored under the key, and the 'other' icon for a key
    that names none of the other four categories.
  */
  function SkillIcon(category: string): (icon: Icon)
    ensures icon == OtherIcon <==> forall c :: c != Other ==> CategoryKey(c) != category
    ensures icon == FrontendIcon <==> category == CategoryKey(Frontend)
    ensures icon == BackendIcon <==> category == CategoryKey(Backend)
    ensures icon == DatabaseIcon <==> category == CategoryKey(Database)
    ensures icon == ToolsIcon <==> category == CategoryKey(Tools)
  {
    if category == "frontend" then assert CategoryKey(Frontend) == category; FrontendIcon
    else if category == "backend" then assert CategoryKey(Backend) == category; BackendIcon
    else if category == "database" then assert CategoryKey(Database) == category; DatabaseIcon
    else if category == "tools" then assert CategoryKey(Tools) == category; ToolsIcon
    else OtherIcon
  }

  function Last<T>(s: seq<T>): T
    requires s != []
  {
    s[|s| - 1]
  }

  function Init<T>(s: seq<T>): seq<T>
    requires s != []
  {
    s[..|s| - 1]
  }

  /** The skills of category `c`, in input order. */
  function SkillsIn(skills: seq<Skill>, c: Category): seq<Skill> {
    if skills == [] then []
    else
      var rest := SkillsIn(Init(skills), c);
      if Last(skills).category == c then rest + [Last(skills)] else rest
  }

  /** The categories that occur in `skills`, each once, in order of first appearance. */
  function Categories(skills: seq<Skill>): seq<Category> {
    if skills == [] then []
    else
      var rest := Categories(Init(skills));
      if Last(skills).category in rest then rest else rest + [Last(skills).category]
  }

  /**
    The `groupedSkills` reduce: for each skill in turn, create its category's list when the
    category is new, then push the skill. `order` is the key order of the resulting object
    (insertion order), which is the order `Object.entries` lists the groups in.
  */
  method GroupSkills(skills: seq<Skill>) returns (order: seq<Category>, groups: map<Category, seq<Skill>>)
    ensures order == Categories(skills)
    ensures forall c :: c in groups <==> c in order
    ensures forall c :: c in groups ==> groups[c] == SkillsIn(skills, c)
  {
    order := [];
    groups := map[];
    for k := 0 to |skills|
      invariant order == Categories(skills[..k])
      invariant forall c :: c in groups <==> c in order
      invariant forall c :: c in groups ==> groups[c] == SkillsIn(skills[..k], c)
    {
      var skill := skills[k];
      assert Init(skills[..k + 1]) == skills[..k];
      assert Last(skills[..k + 1]) == skill;
      if skill.category !in groups {
        groups := groups[skill.category := []];
        order := order + [skill.category];
      }
      groups := groups[skill.category := groups[skill.category] + [skill]];
      NotGroupedIsEmpty(skills[..k], skill.category);
    }
    assert skills[..|skills|] == skills;
  }

  /** A category that does not occur has an empty group. */
  lemma {:induction false} NotGroupedIsEmpty(skills: seq<Skill>, c: Category)
    ensures c !in Categories(skills) ==> SkillsIn(skills, c) == []
  {
    if skills != [] {
      NotGroupedIsEmpty(Init(skills), c);
    }
  }

  /**
    `SkillsIn` is the order-preserving filter by category: a single skill forms a group of one
    under its own category and is absent from every other, and the group of a list split in
    two is the two parts' groups one after the other.
  */
  lemma {:induction false} SkillsInAppend(a: seq<Skill>, b: seq<Skill>, c: Category)
    ensures forall s :: SkillsIn([s], c) == (if s.category == c then [s] else [])
    ensures SkillsIn(a + b, c) == SkillsIn(a, c) + SkillsIn(b, c)
    decreases |b|
  {
    if b != [] {
      assert Init(a + b) == a + Init(b);
      assert Last(a + b) == Last(b);
      SkillsInAppend(a, Init(b), c);
    } else {
      assert a + b == a;
    }
  }

  /** Every skill of a group is of the group's category. */
  lemma {:induction false} SkillsInOfCategory(skills: seq<Skill>, c: Category)
    ensures forall s :: s in SkillsIn(skills, c) ==> s.category == c && s in skills
  {
    if skills != [] {
      SkillsInOfCategory(Init(skills), c);
      forall s | s in Init(skills) ensures s in skills {
        var k :| 0 <= k < |Init(skills)| && Init(skills)[k] == s;
        assert skills[k] == s;
      }
    }
  }

  /** Every skill is in the group of its own category. */
  lemma {:induction false} SkillInOwnGroup(skills: seq<Skill>)
    ensures forall s :: s in skills ==> s in SkillsIn(skills, s.category)
  {
    if skills != [] {
      var p := Init(skills);
      SkillInOwnGroup(p);
      assert skills == p + [Last(skills)];
      forall s | s in skills ensures s in SkillsIn(skills, s.category) {
        if s != Last(skills) {
          assert s in p;
          assert SkillsIn(p, s.category) <= SkillsIn(skills, s.category);
        }
      }
    }
  }

  predicate NoDuplicates<T(==)>(s: seq<T>) {
    forall i, j :: 0 <= i < j < |s| ==> s[i] != s[j]
  }

  /** The categories are listed once each, and are exactly those of the skills. */
  lemma {:induction false} CategoriesDistinct(skills: seq<Skill>)
    ensures NoDuplicates(Categories(skills))
    ensures forall c :: c in Categories(skills) <==> exists s :: s in skills && s.category == c
  {
    if skills != [] {
      var p := Init(skills);
      CategoriesDistinct(p);
      assert skills == p + [Last(skills)];
      forall c ensures c in Categories(skills) <==> exists s :: s in skills && s.category == c {
        if c in Categories(p) {
          var s :| s in p && s.category == c;
          assert s in skills;
        }
        if exists s :: s in skills && s.category == c {
          var s :| s in skills && s.category == c;
          if s != Last(skills) {
            assert s in p;
          }
        }
      }
    }
  }

  /** The total size of the groups listed in `order`. */
  function GroupTotal(skills: seq<Skill>, order: seq<Category>): nat {
    if order == [] then 0 else GroupTotal(skills, Init(order)) + |SkillsIn(skills, Last(order))|
  }

  lemma {:induction false} GroupTotalSnoc(p: seq<Skill>, s: Skill, order: seq<Category>)
    requires NoDuplicates(order)
    ensures GroupTotal(p + [s], order) == GroupTotal(p, order) + (if s.category in order then 1 else 0)
  {
    if order != [] {
      var o := Init(order);
      assert NoDuplicates(o);
      GroupTotalSnoc(p, s, o);
      assert Init(p + [s]) == p;
      assert order == o + [Last(order)];
      assert Last(order) !in o;
    }
  }

  /** The group sizes add up to the number of skills. */
  lemma {:induction false} GroupSizesSum(skills: seq<Skill>)
    ensures GroupTotal(skills, Categories(skills)) == |skills|
  {
    if skills != [] {
      var p, s := Init(skills), Last(skills);
      assert skills == p + [s];
      GroupSizesSum(p);
      CategoriesDistinct(p);
      GroupTotalSnoc(p, s, Categories(p));
      if s.category !in Categories(p) {
        var o := Categories(p) + [s.category];
        assert Init(o) == Categories(p);
        NotGroupedIsEmpty(p, s.category);
        assert Init(skills) == p;
      }
    }
  }

  lemma {:induction false} DistinctCard<T>(s: seq<T>)
    requires NoDuplicates(s)
    ensures |set x | x in s| == |s|
  {
    if s != [] {
      var p := Init(s);
      assert NoDuplicates(p);
      DistinctCard(p);
      assert s == p + [Last(s)];
      assert (set x | x in s) == (set x | x in p) + {Last(s)};
      assert Last(s) !in (set x | x in p);
    }
  }

  /**
    The two counts of the summary line: the skills, which are as many as the grouped skills,
    and the groups, which are as many as the distinct categories among the skills.
  */
  lemma SummaryCounts(skills: seq<Skill>)
    ensures GroupTotal(skills, Categories(skills)) == |skills|
    ensures |Categories(skills)| == |set s | s in skills :: s.category|
  {
    GroupSizesSum(skills);
    CategoriesDistinct(skills);
    DistinctCard(Categories(skills));
    assert (set c | c in Categories(skills)) == (set s | s in skills :: s.category);
  }

  /** The position of the first skill of category `c`, or `|skills|` when there is none. */
  function FirstOf(skills: seq<Skill>, c: Category): nat {
    if skills == [] then 0
    else if c in Categories(Init(skills)) then FirstOf(Init(skills), c)
    else if Last(skills).category == c then |skills| - 1
    else |skills|
  }

  /**
    `FirstOf` is the least index holding a skill of category `c`; it is `|skills|` exactly when
    the category does not occur.
  */
  lemma {:induction false} FirstOfIsFirst(skills: seq<Skill>, c: Category)
    ensures FirstOf(skills, c) <= |skills|
    ensures FirstOf(skills, c) < |skills| <==> c in Categories(skills)
    ensures FirstOf(skills, c) < |skills| ==> skills[FirstOf(skills, c)].category == c
    ensures forall k :: 0 <= k < FirstOf(skills, c) ==> skills[k].category != c
  {
    if skills != [] {
      var p := Init(skills);
      FirstOfIsFirst(p, c);
      assert forall k :: 0 <= k < |p| ==> skills[k] == p[k];
    }
  }

  /** Groups are listed in the order of each category's first appearance. */
  lemma {:induction false} CategoriesInFirstAppearanceOrder(skills: seq<Skill>)
    ensures forall i :: 0 <= i < |Categories(skills)| ==> FirstOf(skills, Categories(skills)[i]) < |skills|
    ensures forall i, j :: 0 <= i < j < |Categories(skills)| ==>
      FirstOf(skills, Categories(skills)[i]) < FirstOf(skills, Categories(skills)[j])
  {
    if skills != [] {
      var p := Init(skills);
      CategoriesInFirstAppearanceOrder(p);
      var o := Categories(p);
      forall i | 0 <= i < |o| ensures FirstOf(skills, o[i]) == FirstOf(p, o[i]) {
        assert o[i] in o;
      }
    }
  }
}
