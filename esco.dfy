/** Building an occupation from an ESCO API record: the title, the English description,
    the uri, and the essential and optional skills, each linked skill classified as a
    skill or as knowledge by its ESCO skill type. */
module Esco {
  import opened Wrappers

  const SkillTypeUri: string := "http://data.europa.eu/esco/skill-type/skill"
  const KnowledgeTypeUri: string := "http://data.europa.eu/esco/skill-type/knowledge"
  const EssentialKey: string := "hasEssentialSkill"
  const OptionalKey: string := "hasOptionalSkill"

  /** One entry of a link list; each field may be absent from the record. */
  datatype Link = Link(title: Option<string>, uri: Option<string>, skillType: Option<string>)

  /** The fields of an occupation record that are read. A missing "description" or
      "_links" object reads as an empty map, as `.get(key, {})` makes it. */
  datatype OccupationRecord = OccupationRecord(
    title: Option<string>,
    description: map<string, map<string, string>>,
    uri: Option<string>,
    links: map<string, seq<Link>>)

  datatype Skill = Skill(title: Option<string>, uri: Option<string>, skillType: string)

  datatype Occupation = Occupation(
    title: Option<string>,
    description: string,
    skills: seq<Skill>,
    optionalSkills: seq<Skill>,
    uri: string)

  /** The skill a link stands for, if its skill type is one of the two ESCO types. */
  function Classify(link: Link): Option<Skill> {
    if link.skillType == Some(SkillTypeUri) then Some(Skill(link.title, link.uri, "skill"))
    else if link.skillType == Some(KnowledgeTypeUri) then Some(Skill(link.title, link.uri, "knowledge"))
    else None
  }

  /** The skills of a link list, in list order. */
  function SkillsOf(links: seq<Link>): seq<Skill> {
    if links == [] then []
    else
      var init := SkillsOf(links[..|links| - 1]);
      match Classify(links[|links| - 1])
      case Some(s) => init + [s]
      case None => init
  }

  /** `json_data.get('_links', {}).get(link_key, [])`. */
  function LinksUnder(json: OccupationRecord, linkKey: string): seq<Link> {
    if linkKey in json.links then json.links[linkKey] else []
  }

  /** `json_data.get('description', {}).get('en', {}).get('literal', '')`. */
  function EnglishDescription(json: OccupationRecord): string {
    if "en" in json.description && "literal" in json.description["en"] then json.description["en"]["literal"]
    else ""
  }

  /** The occupation `build_occupation` returns for a record. */
  function OccupationOf(json: OccupationRecord): Occupation {
    Occupation(json.title, EnglishDescription(json),
      SkillsOf(LinksUnder(json, EssentialKey)), SkillsOf(LinksUnder(json, OptionalKey)),
      json.uri.GetOr(""))
  }

  method ExtractSkills(json: OccupationRecord, linkKey: string) returns (skills: seq<Skill>)
    ensures skills == SkillsOf(LinksUnder(json, linkKey))
  {
    var links := LinksUnder(json, linkKey);
    skills := [];
    for i := 0 to |links|
      invariant skills == SkillsOf(links[..i])
    {
      var link := links[i];
      assert links[..i + 1][..i] == links[..i];
      if link.skillType == Some(SkillTypeUri) {
        skills := skills + [Skill(link.title, link.uri, "skill")];
      } else if link.skillType == Some(KnowledgeTypeUri) {
        skills := skills + [Skill(link.title, link.uri, "knowledge")];
      }
    }
    assert links[..|links|] == links;
  }

  method BuildOccupation(json: OccupationRecord) returns (occupation: Occupation)
    ensures occupation == OccupationOf(json)
  {
    var jobTitle := json.title;
    var jobDescription := EnglishDescription(json);
    var uri := json.uri.GetOr("");
    var skills := ExtractSkills(json, EssentialKey);
    var optionalSkills := ExtractSkills(json, OptionalKey);
    occupation := Occupation(jobTitle, jobDescription, skills, optionalSkills, uri);
  }

  // ---------------------------------------------------------------------------
  // Properties.

  /** A link becomes a skill exactly when its type is one of the two ESCO types,
      keeping its title and uri and naming the type. */
  lemma ClassifyExactly(link: Link)
    ensures Classify(link).Some? <==> link.skillType in {Some(SkillTypeUri), Some(KnowledgeTypeUri)}
    ensures Classify(link).Some? ==>
      && Classify(link).value.title == link.title
      && Classify(link).value.uri == link.uri
      && (Classify(link).value.skillType == "skill" <==> link.skillType == Some(SkillTypeUri))
      && (Classify(link).value.skillType == "knowledge" <==> link.skillType == Some(KnowledgeTypeUri))
  {
  }

  /** Links of other or missing types are dropped, so there are at most as many skills as links. */
  lemma {:induction false} SkillsOfLength(links: seq<Link>)
    ensures |SkillsOf(links)| <= |links|
  {
    if links != [] {
      SkillsOfLength(links[..|links| - 1]);
    }
  }

  /** Skills come out in the order of the link list. */
  lemma {:induction false} SkillsOfConcat(a: seq<Link>, b: seq<Link>)
    ensures SkillsOf(a + b) == SkillsOf(a) + SkillsOf(b)
  {
    if b == [] {
      assert a + b == a;
    } else {
      assert (a + b)[..|a + b| - 1] == a + b[..|b| - 1];
      SkillsOfConcat(a, b[..|b| - 1]);
    }
  }

  /** Every skill stems from a link of the list, and every classifiable link yields its skill. */
  lemma {:induction false} SkillsOfMembers(links: seq<Link>)
    ensures forall s :: s in SkillsOf(links) ==> exists i :: 0 <= i < |links| && Classify(links[i]) == Some(s)
    ensures forall i :: 0 <= i < |links| && Classify(links[i]).Some? ==> Classify(links[i]).value in SkillsOf(links)
  {
    if links != [] {
      var init := links[..|links| - 1];
      SkillsOfMembers(init);
      assert forall i :: 0 <= i < |init| ==> init[i] == links[i];
    }
  }

  /** A record without the link key has no skills under it. */
  lemma MissingKeyNoSkills(json: OccupationRecord, linkKey: string)
    requires linkKey !in json.links
    ensures SkillsOf(LinksUnder(json, linkKey)) == []
  {
  }

  /** The defaults of `build_occupation`: an empty description without an English
      literal, an empty uri without one. */
  lemma OccupationDefaults(json: OccupationRecord)
    ensures ("en" !in json.description || "literal" !in json.description["en"]) ==> OccupationOf(json).description == ""
    ensures json.uri.None? ==> OccupationOf(json).uri == ""
    ensures json.uri.Some? ==> OccupationOf(json).uri == json.uri.value
    ensures OccupationOf(json).title == json.title
  {
  }

  /** Essential skills depend only on the "hasEssentialSkill" links and optional skills
      only on the "hasOptionalSkill" links. */
  lemma SkillsFromTheirOwnKey(j1: OccupationRecord, j2: OccupationRecord)
    ensures LinksUnder(j1, EssentialKey) == LinksUnder(j2, EssentialKey) ==>
      OccupationOf(j1).skills == OccupationOf(j2).skills
    ensures LinksUnder(j1, OptionalKey) == LinksUnder(j2, OptionalKey) ==>
      OccupationOf(j1).optionalSkills == OccupationOf(j2).optionalSkills
  {
  }
}
