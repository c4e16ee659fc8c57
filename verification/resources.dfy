/** The six generic resources of the REST server and their `config` entries
    (backend/server-pg.ts:134-145), with the NOT NULL constraints of the tables the server
    creates at start-up (backend/server-pg.ts:20-70). */
module Resources {

  import opened Wrappers

  datatype Resource = Projects | Experiences | Education | Languages | Skills | Interests

  /** The path segment, which is also the table name. */
  function Name(r: Resource): string {
    match r
    case Projects => "projects"
    case Experiences => "experiences"
    case Education => "education"
    case Languages => "languages"
    case Skills => "skills"
    case Interests => "interests"
  }

  /** The alternation `(projects|experiences|education|languages|skills|interests)`. */
  function ResourceNamed(s: string): (r: Option<Resource>)
    ensures r.Some? ==> Name(r.value) == s
  {
    if s == "projects" then Some(Projects)
    else if s == "experiences" then Some(Experiences)
    else if s == "education" then Some(Education)
    else if s == "languages" then Some(Languages)
    else if s == "skills" then Some(Skills)
    else if s == "interests" then Some(Interests)
    else None
  }

  /** Every resource is recognised by its own name, and only by it. */
  lemma ResourceNamedIff(s: string, r: Resource)
    ensures ResourceNamed(s) == Some(r) <==> s == Name(r)
  {
  }

  /** A `config` entry: the table, its columns in binding order, and the camelCase payload
      keys for the columns that have one, in the order the object literal lists them. */
  datatype Config = Config(table: string, columns: seq<string>, keyMap: seq<(string, string)>)

  /** `config[resource]`: the entry writes the table named in the path, lists each column
      once, and maps payload keys only to columns it lists. */
  function ConfigOf(r: Resource): (c: Config)
    ensures c.table == Name(r)
    ensures |c.columns| > 0
    ensures forall i, j :: 0 <= i < j < |c.columns| ==> c.columns[i] != c.columns[j]
    ensures forall i :: 0 <= i < |c.keyMap| ==> c.keyMap[i].1 in c.columns
  {
    match r
    case Projects => Config("projects", ["title", "description", "image_url", "demo_url", "github_url"],
                           [("imageUrl", "image_url"), ("demoUrl", "demo_url"), ("githubUrl", "github_url")])
    case Experiences => Config("experiences", ["title", "company", "location", "start_date", "end_date", "category", "description"],
                              [("startDate", "start_date"), ("endDate", "end_date")])
    case Education => Config("education", ["degree", "institution", "start_year", "end_year", "description"],
                            [("startYear", "start_year"), ("endYear", "end_year")])
    case Languages => Config("languages", ["name", "level"], [])
    case Skills => Config("skills", ["name", "category"], [])
    case Interests => Config("interests", ["title", "description"], [])
  }

  /** The columns declared NOT NULL (besides the id): each is a column the route binds. */
  function NotNullColumns(r: Resource): (s: set<string>)
    ensures forall c :: c in s ==> c in ConfigOf(r).columns
  {
    match r
    case Projects => {"title", "description"}
    case Experiences => {"title"}
    case Education => {"degree"}
    case Languages => {"name"}
    case Skills => {"name"}
    case Interests => {"title"}
  }

  /** `resource.slice(0, -1)`: the name without its last character. */
  function Singular(r: Resource): (s: string)
    ensures |s| + 1 == |Name(r)| && s == Name(r)[..|s|]
  {
    Name(r)[..|Name(r)| - 1]
  }

  /** Dropping the last letter makes a singular of every plural name, but "education" is not
      a plural: its messages say "educatio". */
  lemma SingularNames()
    ensures Singular(Projects) == "project" && Singular(Experiences) == "experience"
    ensures Singular(Languages) == "language" && Singular(Skills) == "skill"
    ensures Singular(Interests) == "interest"
    ensures Singular(Education) == "educatio"
  {
  }

  // ----- The personal-info table -----

  /** The columns of `personal_info` in binding order, and the payload key read for each. */
  const PersonalColumns: seq<string> :=
    ["full_name", "title", "summary", "email", "phone", "location", "photo_url"]
  const PersonalKeys: seq<string> :=
    ["fullName", "title", "summary", "email", "phone", "location", "photoUrl"]
}
