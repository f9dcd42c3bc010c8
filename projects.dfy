/**
  The projects grid: each card shows at most three technologies and a "+N more" badge for the
  rest, and a click opens a modal with the whole project while the page behind it is locked.
*/
module Projects {
  import opened Wrappers
  import Text

  datatype LinkType = GitHub | Demo | Live | Figma | Behance
  datatype TechColor = Blue | Green | Purple | Orange | Red | Indigo | Pink | Yellow | Gray
  datatype ProjectCategory = Web | Mobile | Design | Fullstack | FrontendCategory | BackendCategory

  datatype ProjectLink = ProjectLink(kind: LinkType, url: string, caption: string)
  datatype ProjectTech = ProjectTech(name: string, color: TechColor)

  datatype Project = Project(
    id: string,
    title: string,
    description: string,
    shortDescription: string,
    techStack: seq<ProjectTech>,
    role: string,
    imageUrl: string,
    imageAlt: string,
    links: seq<ProjectLink>,
    featured: Option<bool>,
    category: Option<ProjectCategory>)

  /** How many technologies a card lists before it falls back to a counter. */
  const CardTechLimit: nat := 3

  /** `techStack.slice(0, 3)`: the first three technologies, or all of them when there are fewer. */
  function VisibleTech(stack: seq<ProjectTech>): (shown: seq<ProjectTech>)
    ensures |shown| == if |stack| < CardTechLimit then |stack| else CardTechLimit
    ensures shown == stack[..|shown|]
  {
    if |stack| <= CardTechLimit then stack else stack[..CardTechLimit]
  }

  /** The technologies a card does not list. */
  function HiddenTechCount(stack: seq<ProjectTech>): nat {
    if |stack| > CardTechLimit then |stack| - CardTechLimit else 0
  }

  /** The counter badge, present only when some technologies are not listed. */
  function MoreBadge(stack: seq<ProjectTech>): (badge: Option<string>)
    ensures badge.Some? <==> |stack| > CardTechLimit
  {
    if |stack| > CardTechLimit then Some("+" + Text.NatToString(|stack| - CardTechLimit) + " more")
    else None
  }

  /**
    Every technology of a card is either listed or counted by the badge, and the badge's
    number reads back as the count of the unlisted ones.
  */
  lemma CardAccountsForAllTech(stack: seq<ProjectTech>)
    ensures |VisibleTech(stack)| + HiddenTechCount(stack) == |stack|
    ensures HiddenTechCount(stack) > 0 <==> MoreBadge(stack).Some?
    ensures MoreBadge(stack).Some? ==>
      var badge := MoreBadge(stack).value;
      |badge| > 6 && badge[0] == '+' && badge[|badge| - 5..] == " more" &&
      Text.AllDigits(badge[1..|badge| - 5]) && Text.ParseNat(badge[1..|badge| - 5]) == HiddenTechCount(stack)
  {
    if |stack| > CardTechLimit {
      var n := |stack| - CardTechLimit;
      var digits := Text.NatToString(n);
      var badge := "+" + digits + " more";
      assert badge[1..|badge| - 5] == digits;
      assert badge[|badge| - 5..] == " more";
      Text.ParseNatToString(n);
    }
  }

  /** The parts of the modal body, in the order they are laid out. */
  datatype ModalSection = Description | Technologies | Links

  /**
    The modal body: the description always, then the technology list and the links, each only
    when the project has any.
  */
  function ModalSections(p: Project): (sections: seq<ModalSection>)
    ensures |sections| >= 1 && sections[0] == Description
    ensures Technologies in sections <==> |p.techStack| > 0
    ensures Links in sections <==> |p.links| > 0
    ensures forall i, j :: 0 <= i < j < |sections| ==> sections[i] != sections[j]
    ensures forall i :: 0 <= i < |sections| && sections[i] == Links ==> i == |sections| - 1
  {
    [Description]
      + (if |p.techStack| > 0 then [Technologies] else [])
      + (if |p.links| > 0 then [Links] else [])
  }

  /** The `overflow` style of the document body. */
  datatype Overflow = NotSet | Hidden | Unset

  class ProjectsView {
    var selectedProject: Option<Project>
    var isModalOpen: bool
    var bodyOverflow: Overflow

    /**
      The modal is open exactly when a project is selected, and the page behind it cannot
      scroll exactly while it is open.
    */
    predicate Valid()
      reads this
    {
      (isModalOpen <==> selectedProject.Some?) && (isModalOpen <==> bodyOverflow == Hidden)
    }

    /** The project the modal shows, if the modal is rendered at all. */
    function ModalProject(): (shown: Option<Project>)
      reads this
      ensures shown.Some? <==> isModalOpen && selectedProject.Some?
      ensures shown.Some? ==> shown == selectedProject
    {
      if isModalOpen && selectedProject.Some? then selectedProject else None
    }

    /** While the invariant holds, the modal is rendered exactly for the selected project. */
    lemma ModalShowsSelection()
      requires Valid()
      ensures ModalProject() == selectedProject
      ensures ModalProject().Some? <==> bodyOverflow == Hidden
    {
    }

    constructor ()
      ensures Valid()
      ensures selectedProject == None && !isModalOpen && bodyOverflow == NotSet
    {
      selectedProject := None;
      isModalOpen := false;
      bodyOverflow := NotSet;
    }

    /** A click on a card: the modal shows that project and the page stops scrolling. */
    method OpenModal(project: Project)
      modifies this
      ensures Valid()
      ensures selectedProject == Some(project) && isModalOpen && bodyOverflow == Hidden
      ensures ModalProject() == Some(project)
    {
      selectedProject := Some(project);
      isModalOpen := true;
      bodyOverflow := Hidden;
    }

    /** The close button or the backdrop: nothing is selected and the page scrolls again. */
    method CloseModal()
      modifies this
      ensures Valid()
      ensures selectedProject == None && !isModalOpen && bodyOverflow == Unset
      ensures ModalProject() == None
    {
      isModalOpen := false;
      selectedProject := None;
      bodyOverflow := Unset;
    }
  }
}
