/**
 * Enrollment declarations (src/enroll.rs): a YAML document names schools, each with
 * an integer id and a subdomain, and lists enrollments as a school name plus a class
 * name; reading it resolves every enrollment against the school table.
 */
module Enroll {

  import opened Wrappers
  import opened Ints
  import opened YamlTree
  import opened Output

  /** One subscription to a class of a school. */
  datatype Enrollment = Enrollment(subdomain: string, schoolId: i32, className: string)

  /** School display name to (id, subdomain). */
  type SchoolMap = map<string, (i32, string)>

  // ---------------------------------------------------------------------------
  // Identity
  // ---------------------------------------------------------------------------

  /**
   * The standard library's `DefaultHasher` run over the derived `Hash` of the three
   * fields. Its internals are not modelled: any function of the three fields will do.
   */
  type Hasher = (string, i32, string) -> u64

  /** `ident`: the hash of the three fields. */
  function Ident(hash: Hasher, e: Enrollment): u64
  {
    hash(e.subdomain, e.schoolId, e.className)
  }

  /** `PartialEq::eq`: two enrollments are equal when their idents are. */
  predicate Same(hash: Hasher, a: Enrollment, b: Enrollment)
  {
    Ident(hash, a) == Ident(hash, b)
  }

  /** Equal fields give equal idents, so the two enrollments compare equal. */
  lemma EqualFieldsAreSame(hash: Hasher, a: Enrollment, b: Enrollment)
    requires a.subdomain == b.subdomain && a.schoolId == b.schoolId && a.className == b.className
    ensures Ident(hash, a) == Ident(hash, b)
    ensures Same(hash, a, b)
  {
  }

  /** Comparison by ident is an equivalence, whatever the hasher. */
  lemma SameIsEquivalence(hash: Hasher, a: Enrollment, b: Enrollment, c: Enrollment)
    ensures Same(hash, a, a)
    ensures Same(hash, a, b) <==> Same(hash, b, a)
    ensures Same(hash, a, b) && Same(hash, b, c) ==> Same(hash, a, c)
  {
  }

  /** The hasher gives distinct idents to the distinct enrollments of `es`. */
  ghost predicate CollisionFree(hash: Hasher, es: set<Enrollment>)
  {
    forall a, b :: a in es && b in es && Ident(hash, a) == Ident(hash, b) ==> a == b
  }

  /** Among enrollments whose idents do not collide, comparison by ident is field equality. */
  lemma SameIsFieldEquality(hash: Hasher, es: set<Enrollment>, a: Enrollment, b: Enrollment)
    requires CollisionFree(hash, es) && a in es && b in es
    ensures Same(hash, a, b) <==> a == b
  {
  }

  function GetSubdomain(e: Enrollment): (s: string)
    ensures Enrollment(s, e.schoolId, e.className) == e
  {
    e.subdomain
  }

  function GetSchoolId(e: Enrollment): (id: i32)
    ensures Enrollment(e.subdomain, id, e.className) == e
  {
    e.schoolId
  }

  function GetClass(e: Enrollment): (c: string)
    ensures Enrollment(e.subdomain, e.schoolId, c) == e
  {
    e.className
  }

  // ---------------------------------------------------------------------------
  // Error messages
  // ---------------------------------------------------------------------------

  const BAD_SCHOOL_NAME := New(YAML_PROCESS, "Loading School Names", "Bad School Name")
  const ID_NOT_INTEGER := New(YAML_PROCESS, "Loading School Info", "School ID is not an Integer")
  const SUBDOMAIN_NOT_STRING := New(YAML_PROCESS, "Loading School Info", "School Subdomain is not a String")
  const INFO_KEY_NOT_STRING := New(YAML_PROCESS, "Loading School Info", "Info Key is not a String")
  const NO_SUBDOMAIN := New(YAML_PROCESS, "Loading School Info", "No subdomain for School")
  const NO_ID := New(YAML_PROCESS, "Loading School Info", "No id for School")
  const NO_ID_OR_SUBDOMAIN := New(YAML_PROCESS, "Loading School Info", "No id or subdomain for School")
  const BAD_SCHOOL_INFO := New(YAML_PROCESS, "Loading School Info", "Bad School Info")
  const NO_SCHOOL_MAP := New(YAML_PROCESS, "Loading Schools", "No School Map")
  const MISSING_FIELDS := New(YAML_PROCESS, "Loading Enrollment Info", "Not all required fields found")
  const NOT_A_MAPPING := New(YAML_PROCESS, "Loading Enrollment Info", "Enrollment in array is not in form of mapping.")
  const NO_ENROLLMENT_ARRAY := New(YAML_PROCESS, "Loading Enrollment Info", "Array of enrollments not found.")
  const NO_DOCUMENTS := New(YAML_PROCESS, "Loading from String", "No YAML docs in read")

  // ---------------------------------------------------------------------------
  // Fields
  // ---------------------------------------------------------------------------

  function ExtractSchoolName(key: Yaml): (r: Result<string, Message>)
    ensures key.String? ==> r == Ok(key.text)
    ensures !key.String? ==> r == Err(BAD_SCHOOL_NAME)
  {
    if key.String? then Ok(key.text) else Err(BAD_SCHOOL_NAME)
  }

  /** An integer id, narrowed from 64 to 32 bits as `as i32` does. */
  function ExtractIdField(value: Yaml): (r: Result<i32, Message>)
    ensures value.Integer? <==> r.Ok?
    ensures r.Ok? ==> (r.value - value.number) % TWO_TO_THE_32 == 0
    ensures r.Ok? && -TWO_TO_THE_31 <= value.number < TWO_TO_THE_31 ==> r.value == value.number
    ensures r.Err? ==> r.error == ID_NOT_INTEGER
  {
    if value.Integer? then Ok(AsI32(value.number)) else Err(ID_NOT_INTEGER)
  }

  function ExtractSubdomainField(value: Yaml): (r: Result<string, Message>)
    ensures value.String? ==> r == Ok(value.text)
    ensures !value.String? ==> r == Err(SUBDOMAIN_NOT_STRING)
  {
    if value.String? then Ok(value.text) else Err(SUBDOMAIN_NOT_STRING)
  }

  // ---------------------------------------------------------------------------
  // School info: a mapping with an integer `id` and a string `subdomain`
  // ---------------------------------------------------------------------------

  /** The `id` and `subdomain` found so far; a later entry overwrites an earlier one. */
  type Provisional = (Option<i32>, Option<string>)

  /** Reads the entries of an info mapping in order, stopping at the first bad one. */
  function ScanInfo(entries: seq<(Yaml, Yaml)>, found: Provisional): Result<Provisional, Message>
    decreases |entries|
  {
    if |entries| == 0 then Ok(found)
    else
      var (key, value) := entries[0];
      if !key.String? then Err(INFO_KEY_NOT_STRING)
      else if key.text == "id" then
        var id :- ExtractIdField(value);
        ScanInfo(entries[1..], (Some(id), found.1))
      else if key.text == "subdomain" then
        var subdomain :- ExtractSubdomainField(value);
        ScanInfo(entries[1..], (found.0, Some(subdomain)))
      else ScanInfo(entries[1..], found)
  }

  /** `extract_school_info`. */
  function ExtractSchoolInfo(info: Yaml): Result<(i32, string), Message>
  {
    if !info.Hash? then Err(BAD_SCHOOL_INFO)
    else
      var found :- ScanInfo(info.entries, (None, None));
      match found
      case (Some(id), Some(subdomain)) => Ok((id, subdomain))
      case (Some(_), None) => Err(NO_SUBDOMAIN)
      case (None, Some(_)) => Err(NO_ID)
      case (None, None) => Err(NO_ID_OR_SUBDOMAIN)
  }

  /** The complaint a single entry of an info mapping raises on its own, if any. */
  function InfoEntryError(entry: (Yaml, Yaml)): Option<Message>
  {
    if !entry.0.String? then Some(INFO_KEY_NOT_STRING)
    else if entry.0.text == "id" && !entry.1.Integer? then Some(ID_NOT_INTEGER)
    else if entry.0.text == "subdomain" && !entry.1.String? then Some(SUBDOMAIN_NOT_STRING)
    else None
  }

  predicate InfoEntriesClean(entries: seq<(Yaml, Yaml)>)
  {
    forall i :: 0 <= i < |entries| ==> InfoEntryError(entries[i]).None?
  }

  /** `b` if it holds something, else `a`: the later of two findings wins. */
  function Later<T>(a: Option<T>, b: Option<T>): Option<T>
  {
    if b.Some? then b else a
  }

  /** The id the last `id` entry declares. */
  function LastId(entries: seq<(Yaml, Yaml)>): Option<i32>
    requires InfoEntriesClean(entries)
  {
    match LastWhere(entries, HasKey("id"))
    case Some(entry) => assert InfoEntryError(entry).None?; Some(AsI32(entry.1.number))
    case None => None
  }

  /** The subdomain the last `subdomain` entry declares. */
  function LastSubdomain(entries: seq<(Yaml, Yaml)>): Option<string>
    requires InfoEntriesClean(entries)
  {
    match LastWhere(entries, HasKey("subdomain"))
    case Some(entry) => assert InfoEntryError(entry).None?; Some(entry.1.text)
    case None => None
  }

  lemma {:induction false} ScanInfoClean(entries: seq<(Yaml, Yaml)>, found: Provisional)
    requires InfoEntriesClean(entries)
    ensures ScanInfo(entries, found) == Ok((Later(found.0, LastId(entries)), Later(found.1, LastSubdomain(entries))))
    decreases |entries|
  {
    if |entries| > 0 {
      var rest := entries[1..];
      assert InfoEntriesClean(rest) by {
        forall i | 0 <= i < |rest| ensures InfoEntryError(rest[i]).None? {
          assert rest[i] == entries[i + 1];
        }
      }
      assert InfoEntryError(entries[0]).None?;
      var (key, value) := entries[0];
      var next: Provisional :=
        if key.text == "id" then (Some(AsI32(value.number)), found.1)
        else if key.text == "subdomain" then (found.0, Some(value.text))
        else found;
      ScanInfoClean(rest, next);
    }
  }

  lemma {:induction false} ScanInfoFirstError(entries: seq<(Yaml, Yaml)>, found: Provisional, i: nat)
    requires i < |entries| && InfoEntryError(entries[i]).Some?
    requires forall j :: 0 <= j < i ==> InfoEntryError(entries[j]).None?
    ensures ScanInfo(entries, found) == Err(InfoEntryError(entries[i]).value)
    decreases i
  {
    if i > 0 {
      assert InfoEntryError(entries[0]).None?;
      var rest := entries[1..];
      assert rest[i - 1] == entries[i];
      assert forall j :: 0 <= j < i - 1 ==> rest[j] == entries[j + 1];
      var (key, value) := entries[0];
      var next: Provisional :=
        if key.text == "id" then (Some(AsI32(value.number)), found.1)
        else if key.text == "subdomain" then (found.0, Some(value.text))
        else found;
      ScanInfoFirstError(rest, next, i - 1);
    }
  }

  /**
   * `extract_school_info`, entry by entry: a non-mapping is "Bad School Info"; otherwise
   * the first entry with a non-string key, a non-integer `id` or a non-string
   * `subdomain` decides the error; otherwise the last `id` and `subdomain` are the
   * answer, and a missing one has its own message. Other string keys are ignored.
   */
  lemma ExtractSchoolInfoSpec(info: Yaml)
    ensures !info.Hash? ==> ExtractSchoolInfo(info) == Err(BAD_SCHOOL_INFO)
    ensures info.Hash? ==>
              forall i :: (0 <= i < |info.entries| && InfoEntryError(info.entries[i]).Some? &&
                           forall j :: 0 <= j < i ==> InfoEntryError(info.entries[j]).None?)
                ==> ExtractSchoolInfo(info) == Err(InfoEntryError(info.entries[i]).value)
    ensures info.Hash? && InfoEntriesClean(info.entries) ==>
              ExtractSchoolInfo(info) ==
                match (LastId(info.entries), LastSubdomain(info.entries))
                case (Some(id), Some(subdomain)) => Ok((id, subdomain))
                case (Some(_), None) => Err(NO_SUBDOMAIN)
                case (None, Some(_)) => Err(NO_ID)
                case (None, None) => Err(NO_ID_OR_SUBDOMAIN)
  {
    if info.Hash? {
      forall i | 0 <= i < |info.entries| && InfoEntryError(info.entries[i]).Some? &&
                 forall j :: 0 <= j < i ==> InfoEntryError(info.entries[j]).None?
        ensures ExtractSchoolInfo(info) == Err(InfoEntryError(info.entries[i]).value)
      {
        ScanInfoFirstError(info.entries, (None, None), i);
      }
      if InfoEntriesClean(info.entries) {
        ScanInfoClean(info.entries, (None, None));
      }
    }
  }

  /** A well-formed school info: a mapping with string keys whose `id` is an integer and whose `subdomain` is a string. */
  predicate WellFormedInfo(info: Yaml)
  {
    && info.Hash?
    && InfoEntriesClean(info.entries)
    && LastWhere(info.entries, HasKey("id")).Some?
    && LastWhere(info.entries, HasKey("subdomain")).Some?
  }

  /** `extract_school_info` succeeds exactly on well-formed school info. */
  lemma ExtractSchoolInfoSucceeds(info: Yaml)
    ensures ExtractSchoolInfo(info).Ok? <==> WellFormedInfo(info)
  {
    ExtractSchoolInfoSpec(info);
    if info.Hash? && !InfoEntriesClean(info.entries) {
      var es := info.entries;
      var i :| 0 <= i < |es| && InfoEntryError(es[i]).Some?;
      FirstFailure(es, (entry: (Yaml, Yaml)) => InfoEntryError(entry).Some?, i);
    }
  }

  /** Where some element is bad, there is a first bad one. */
  lemma {:induction false} FirstFailure<T>(s: seq<T>, bad: T -> bool, k: nat)
    requires k < |s| && bad(s[k])
    ensures exists i :: 0 <= i <= k && bad(s[i]) && forall j :: 0 <= j < i ==> !bad(s[j])
    decreases k
  {
    if exists j :: 0 <= j < k && bad(s[j]) {
      var j :| 0 <= j < k && bad(s[j]);
      FirstFailure(s, bad, j);
    }
  }

  // ---------------------------------------------------------------------------
  // The school table: school names mapped to school info
  // ---------------------------------------------------------------------------

  /** Adds each (name, info) entry in order, stopping at the first bad name or info. */
  function CollectSchools(entries: seq<(Yaml, Yaml)>, acc: SchoolMap): Result<SchoolMap, Message>
    decreases |entries|
  {
    if |entries| == 0 then Ok(acc)
    else
      var name :- ExtractSchoolName(entries[0].0);
      var info :- ExtractSchoolInfo(entries[0].1);
      CollectSchools(entries[1..], acc[name := info])
  }

  /** `extract_schools`. */
  function ExtractSchools(schools: Yaml): Result<SchoolMap, Message>
  {
    if !schools.Hash? then Err(NO_SCHOOL_MAP) else CollectSchools(schools.entries, map[])
  }

  /** The complaint one entry of the school table raises: a bad name first, then bad info. */
  function SchoolEntryError(entry: (Yaml, Yaml)): Option<Message>
  {
    if !entry.0.String? then Some(BAD_SCHOOL_NAME)
    else match ExtractSchoolInfo(entry.1)
      case Err(m) => Some(m)
      case Ok(_) => None
  }

  predicate SchoolEntriesClean(entries: seq<(Yaml, Yaml)>)
  {
    forall i :: 0 <= i < |entries| ==> SchoolEntryError(entries[i]).None?
  }

  /** The string keys of a mapping. */
  function KeyNames(entries: seq<(Yaml, Yaml)>): set<string>
  {
    set i | 0 <= i < |entries| && entries[i].0.String? :: entries[i].0.text
  }

  /** The info the table ends up holding for `name`: its last declaration, or else what `acc` held. */
  function DeclaredInfo(entries: seq<(Yaml, Yaml)>, acc: SchoolMap, name: string): Option<(i32, string)>
  {
    match LastWhere(entries, HasKey(name))
    case Some(entry) =>
      (match ExtractSchoolInfo(entry.1)
       case Ok(info) => Some(info)
       case Err(_) => None)
    case None => if name in acc then Some(acc[name]) else None
  }

  lemma KeyNamesCons(entries: seq<(Yaml, Yaml)>)
    requires |entries| > 0 && entries[0].0.String?
    ensures KeyNames(entries) == {entries[0].0.text} + KeyNames(entries[1..])
  {
    var rest := entries[1..];
    forall n | n in KeyNames(entries) ensures n in {entries[0].0.text} + KeyNames(rest) {
      var i :| 0 <= i < |entries| && entries[i].0.String? && entries[i].0.text == n;
      if i > 0 {
        assert rest[i - 1] == entries[i];
      }
    }
    forall n | n in KeyNames(rest) ensures n in KeyNames(entries) {
      var i :| 0 <= i < |rest| && rest[i].0.String? && rest[i].0.text == n;
      assert entries[i + 1] == rest[i];
    }
  }

  lemma CleanTail(entries: seq<(Yaml, Yaml)>)
    requires |entries| > 0 && SchoolEntriesClean(entries)
    ensures SchoolEntriesClean(entries[1..])
    ensures SchoolEntryError(entries[0]).None?
  {
    forall i | 0 <= i < |entries| - 1 ensures SchoolEntryError(entries[1..][i]).None? {
      assert entries[1..][i] == entries[i + 1];
    }
  }

  /** Declaring `entries[0]` first and the rest after it leaves each name with its last declaration. */
  lemma DeclaredInfoCons(entries: seq<(Yaml, Yaml)>, acc: SchoolMap, name: string)
    requires |entries| > 0 && entries[0].0.String? && ExtractSchoolInfo(entries[0].1).Ok?
    ensures var acc' := acc[entries[0].0.text := ExtractSchoolInfo(entries[0].1).value];
            DeclaredInfo(entries[1..], acc', name) == DeclaredInfo(entries, acc, name)
  {
    var rest := entries[1..];
    var later := LastWhere(rest, HasKey(name));
    if later.None? && entries[0].0 == String(name) {
      assert LastWhere(entries, HasKey(name)) == Some(entries[0]);
    }
  }

  lemma {:induction false} CollectSchoolsClean(entries: seq<(Yaml, Yaml)>, acc: SchoolMap)
    requires SchoolEntriesClean(entries)
    ensures var r := CollectSchools(entries, acc);
            && r.Ok?
            && r.value.Keys == acc.Keys + KeyNames(entries)
            && forall name :: name in r.value ==> Some(r.value[name]) == DeclaredInfo(entries, acc, name)
    decreases |entries|
  {
    if |entries| == 0 {
      assert KeyNames(entries) == {};
    } else {
      var rest := entries[1..];
      CleanTail(entries);
      var acc' := acc[entries[0].0.text := ExtractSchoolInfo(entries[0].1).value];
      CollectSchoolsClean(rest, acc');
      KeyNamesCons(entries);
      var r := CollectSchools(entries, acc);
      assert r == CollectSchools(rest, acc');
      forall name | name in r.value
        ensures Some(r.value[name]) == DeclaredInfo(entries, acc, name)
      {
        DeclaredInfoCons(entries, acc, name);
      }
    }
  }

  lemma {:induction false} CollectSchoolsFirstError(entries: seq<(Yaml, Yaml)>, acc: SchoolMap, i: nat)
    requires i < |entries| && SchoolEntryError(entries[i]).Some?
    requires forall j :: 0 <= j < i ==> SchoolEntryError(entries[j]).None?
    ensures CollectSchools(entries, acc) == Err(SchoolEntryError(entries[i]).value)
    decreases i
  {
    if i > 0 {
      assert SchoolEntryError(entries[0]).None?;
      var rest := entries[1..];
      assert rest[i - 1] == entries[i];
      assert forall j :: 0 <= j < i - 1 ==> rest[j] == entries[j + 1];
      var acc' := acc[entries[0].0.text := ExtractSchoolInfo(entries[0].1).value];
      CollectSchoolsFirstError(rest, acc', i - 1);
    }
  }

  /**
   * `extract_schools`: a non-mapping is "No School Map"; otherwise the first entry with
   * a bad name or bad info decides the error; otherwise the table's names are exactly
   * the mapping's keys, each with the info of its (last) declaration.
   */
  lemma ExtractSchoolsSpec(schools: Yaml)
    ensures !schools.Hash? ==> ExtractSchools(schools) == Err(NO_SCHOOL_MAP)
    ensures schools.Hash? ==>
              forall i :: (0 <= i < |schools.entries| && SchoolEntryError(schools.entries[i]).Some? &&
                           forall j :: 0 <= j < i ==> SchoolEntryError(schools.entries[j]).None?)
                ==> ExtractSchools(schools) == Err(SchoolEntryError(schools.entries[i]).value)
    ensures ExtractSchools(schools).Ok? <==> schools.Hash? && SchoolEntriesClean(schools.entries)
    ensures ExtractSchools(schools).Ok? ==>
              var table := ExtractSchools(schools).value;
              && table.Keys == KeyNames(schools.entries)
              && forall name :: name in table ==> Some(table[name]) == DeclaredInfo(schools.entries, map[], name)
  {
    if schools.Hash? {
      var es := schools.entries;
      forall i | 0 <= i < |es| && SchoolEntryError(es[i]).Some? && forall j :: 0 <= j < i ==> SchoolEntryError(es[j]).None?
        ensures ExtractSchools(schools) == Err(SchoolEntryError(es[i]).value)
      {
        CollectSchoolsFirstError(es, map[], i);
      }
      if SchoolEntriesClean(es) {
        CollectSchoolsClean(es, map[]);
      } else {
        var i :| 0 <= i < |es| && SchoolEntryError(es[i]).Some?;
        FirstFailure(es, (entry: (Yaml, Yaml)) => SchoolEntryError(entry).Some?, i);
      }
    }
  }

  // ---------------------------------------------------------------------------
  // One enrollment: a mapping naming a declared school and a class
  // ---------------------------------------------------------------------------

  /** The school id, subdomain and class found so far; a later entry overwrites an earlier one. */
  type EnrollmentFields = (Option<i32>, Option<string>, Option<string>)

  /**
   * Reads the entries of an enrollment mapping in order. An entry that names no known
   * school, a non-string value or a non-string key is passed over without complaint.
   */
  function ScanEnrollment(entries: seq<(Yaml, Yaml)>, schools: SchoolMap, found: EnrollmentFields): EnrollmentFields
    decreases |entries|
  {
    if |entries| == 0 then found
    else
      var (key, value) := entries[0];
      var next :=
        if key.String? && key.text == "school" && value.String? && value.text in schools then
          (Some(schools[value.text].0), Some(schools[value.text].1), found.2)
        else if key.String? && key.text == "class" && value.String? then
          (found.0, found.1, Some(value.text))
        else found;
      ScanEnrollment(entries[1..], schools, next)
  }

  /** `extract_enrollment`. */
  function ExtractEnrollment(value: Yaml, schools: SchoolMap): Result<Enrollment, Message>
  {
    if !value.Hash? then Err(NOT_A_MAPPING)
    else match ScanEnrollment(value.entries, schools, (None, None, None))
      case (Some(id), Some(subdomain), Some(className)) => Ok(Enrollment(subdomain, id, className))
      case _ => Err(MISSING_FIELDS)
  }

  /** Selects a `school` entry whose value is the name of a school in the table. */
  function SchoolRef(schools: SchoolMap): ((Yaml, Yaml)) -> bool
  {
    (entry: (Yaml, Yaml)) => entry.0 == String("school") && entry.1.String? && entry.1.text in schools
  }

  /** Selects a `class` entry whose value is a string. */
  function ClassRef(): ((Yaml, Yaml)) -> bool
  {
    (entry: (Yaml, Yaml)) => entry.0 == String("class") && entry.1.String?
  }

  /** The table's info for the school the last usable `school` entry names. */
  function ResolvedSchool(entries: seq<(Yaml, Yaml)>, schools: SchoolMap): Option<(i32, string)>
  {
    match LastWhere(entries, SchoolRef(schools))
    case Some(entry) => assert SchoolRef(schools)(entry); Some(schools[entry.1.text])
    case None => None
  }

  /** The class the last usable `class` entry names. */
  function DeclaredClass(entries: seq<(Yaml, Yaml)>): Option<string>
  {
    match LastWhere(entries, ClassRef())
    case Some(entry) => assert ClassRef()(entry); Some(entry.1.text)
    case None => None
  }

  lemma {:induction false} ScanEnrollmentSpec(entries: seq<(Yaml, Yaml)>, schools: SchoolMap, found: EnrollmentFields)
    ensures var r := ScanEnrollment(entries, schools, found);
            var school := ResolvedSchool(entries, schools);
            && (school.Some? ==> r.0 == Some(school.value.0) && r.1 == Some(school.value.1))
            && (school.None? ==> r.0 == found.0 && r.1 == found.1)
            && r.2 == Later(found.2, DeclaredClass(entries))
    decreases |entries|
  {
    if |entries| > 0 {
      var (key, value) := entries[0];
      var next :=
        if key.String? && key.text == "school" && value.String? && value.text in schools then
          (Some(schools[value.text].0), Some(schools[value.text].1), found.2)
        else if key.String? && key.text == "class" && value.String? then
          (found.0, found.1, Some(value.text))
        else found;
      ScanEnrollmentSpec(entries[1..], schools, next);
    }
  }

  /**
   * `extract_enrollment`: a non-mapping is refused; otherwise the enrollment takes its
   * id and subdomain from the table entry of the last `school` entry that names a known
   * school and its class from the last string `class` entry, and "Not all required
   * fields found" is the answer when either is missing.
   */
  lemma ExtractEnrollmentSpec(value: Yaml, schools: SchoolMap)
    ensures !value.Hash? ==> ExtractEnrollment(value, schools) == Err(NOT_A_MAPPING)
    ensures value.Hash? ==>
              ExtractEnrollment(value, schools) ==
                match (ResolvedSchool(value.entries, schools), DeclaredClass(value.entries))
                case (Some(info), Some(className)) => Ok(Enrollment(info.1, info.0, className))
                case _ => Err(MISSING_FIELDS)
  {
    if value.Hash? {
      ScanEnrollmentSpec(value.entries, schools, (None, None, None));
    }
  }

  // ---------------------------------------------------------------------------
  // The enrollment list, and the document it comes from
  // ---------------------------------------------------------------------------

  /** Reads every item in order, stopping at the first that fails. */
  function CollectEnrollments(items: seq<Yaml>, schools: SchoolMap): (r: Result<seq<Enrollment>, Message>)
    ensures r.Ok? <==> forall i :: 0 <= i < |items| ==> ExtractEnrollment(items[i], schools).Ok?
    ensures r.Ok? ==> |r.value| == |items| &&
                      forall i :: 0 <= i < |items| ==> ExtractEnrollment(items[i], schools) == Ok(r.value[i])
    ensures r.Err? ==> exists i :: 0 <= i < |items| && ExtractEnrollment(items[i], schools) == Err(r.error) &&
                                   forall j :: 0 <= j < i ==> ExtractEnrollment(items[j], schools).Ok?
    decreases |items|
  {
    if |items| == 0 then Ok([])
    else
      assert forall i :: 1 <= i < |items| ==> items[1..][i - 1] == items[i];
      var first :- ExtractEnrollment(items[0], schools);
      var rest :- CollectEnrollments(items[1..], schools);
      Ok([first] + rest)
  }

  /** `extract_enrollments`. */
  function ExtractEnrollments(list: Yaml, schools: SchoolMap): (r: Result<seq<Enrollment>, Message>)
    ensures !list.Array? ==> r == Err(NO_ENROLLMENT_ARRAY)
    ensures r.Ok? ==> list.Array? && |r.value| == |list.items| &&
                      forall i :: 0 <= i < |list.items| ==> ExtractEnrollment(list.items[i], schools) == Ok(r.value[i])
    ensures list.Array? ==> (r.Ok? <==> forall i :: 0 <= i < |list.items| ==> ExtractEnrollment(list.items[i], schools).Ok?)
  {
    if !list.Array? then Err(NO_ENROLLMENT_ARRAY) else CollectEnrollments(list.items, schools)
  }

  /** The declarations in one parsed document: its school table, then its enrollment list. */
  function FromDocument(doc: Yaml): Result<seq<Enrollment>, Message>
  {
    var schools :- ExtractSchools(Get(doc, "schools"));
    ExtractEnrollments(Get(doc, "enrollments"), schools)
  }

  /** The part of `load` after scanning: the last document is the one read. */
  function FromDocuments(docs: seq<Yaml>): (r: Result<seq<Enrollment>, Message>)
    ensures |docs| == 0 ==> r == Err(NO_DOCUMENTS)
    ensures |docs| > 0 ==> r == FromDocument(docs[|docs| - 1])
  {
    if |docs| == 0 then Err(NO_DOCUMENTS)
    else FromDocument(docs[|docs| - 1])
  }

  /** `load`, from the file read onwards; the YAML scanner is a parameter. */
  function Load(read: Result<string, IoError>, scan: string -> Result<seq<Yaml>, ScanError>): (r: Result<seq<Enrollment>, Message>)
    ensures read.Err? ==> r == Err(FromIoError(read.error))
    ensures read.Ok? && scan(read.value).Err? ==> r == Err(FromScanError(scan(read.value).error))
    ensures read.Ok? && scan(read.value).Ok? ==> r == FromDocuments(scan(read.value).value)
  {
    match read
    case Err(e) => Err(FromIoError(e))
    case Ok(text) =>
      match scan(text)
      case Err(e) => Err(FromScanError(e))
      case Ok(docs) => FromDocuments(docs)
  }

  // ---------------------------------------------------------------------------
  // Writing a declarations document and reading it back
  // ---------------------------------------------------------------------------

  /** A school as the declarations file names it. */
  datatype SchoolDecl = SchoolDecl(name: string, id: i32, subdomain: string)

  /** An enrollment as the declarations file lists it: a school name and a class. */
  datatype EnrollmentDecl = EnrollmentDecl(school: string, className: string)

  function InfoYaml(d: SchoolDecl): Yaml
  {
    Hash([(String("id"), Integer(d.id)), (String("subdomain"), String(d.subdomain))])
  }

  function SchoolEntries(ds: seq<SchoolDecl>): (entries: seq<(Yaml, Yaml)>)
    ensures |entries| == |ds|
    ensures forall i :: 0 <= i < |ds| ==> entries[i] == (String(ds[i].name), InfoYaml(ds[i]))
  {
    seq(|ds|, i requires 0 <= i < |ds| => (String(ds[i].name), InfoYaml(ds[i])))
  }

  function EnrollmentYaml(e: EnrollmentDecl): Yaml
  {
    Hash([(String("school"), String(e.school)), (String("class"), String(e.className))])
  }

  function EnrollmentItems(es: seq<EnrollmentDecl>): (items: seq<Yaml>)
    ensures |items| == |es|
    ensures forall i :: 0 <= i < |es| ==> items[i] == EnrollmentYaml(es[i])
  {
    seq(|es|, i requires 0 <= i < |es| => EnrollmentYaml(es[i]))
  }

  /** The document `schools: {...}, enrollments: [...]` declaring `ds` and `es`. */
  function DeclarationsYaml(ds: seq<SchoolDecl>, es: seq<EnrollmentDecl>): Yaml
  {
    Hash([(String("schools"), Hash(SchoolEntries(ds))), (String("enrollments"), Array(EnrollmentItems(es)))])
  }

  predicate DistinctNames(ds: seq<SchoolDecl>)
  {
    forall i, j :: 0 <= i < j < |ds| ==> ds[i].name != ds[j].name
  }

  predicate Declared(ds: seq<SchoolDecl>, name: string)
  {
    exists j :: 0 <= j < |ds| && ds[j].name == name
  }

  lemma InfoYamlRead(d: SchoolDecl)
    ensures ExtractSchoolInfo(InfoYaml(d)) == Ok((d.id, d.subdomain))
  {
    var entries := InfoYaml(d).entries;
    assert ScanInfo(entries[1..][1..], (Some(d.id), Some(d.subdomain))) == Ok((Some(d.id), Some(d.subdomain)));
    assert ScanInfo(entries[1..], (Some(d.id), None)) == Ok((Some(d.id), Some(d.subdomain)));
  }

  /** The school table read from declarations with distinct names holds exactly those schools. */
  lemma SchoolTableRead(ds: seq<SchoolDecl>)
    requires DistinctNames(ds)
    ensures ExtractSchools(Hash(SchoolEntries(ds))).Ok?
    ensures var table := ExtractSchools(Hash(SchoolEntries(ds))).value;
            forall j :: 0 <= j < |ds| ==> ds[j].name in table && table[ds[j].name] == (ds[j].id, ds[j].subdomain)
  {
    var entries := SchoolEntries(ds);
    forall i | 0 <= i < |entries| ensures SchoolEntryError(entries[i]).None? {
      InfoYamlRead(ds[i]);
    }
    ExtractSchoolsSpec(Hash(entries));
    var table := ExtractSchools(Hash(entries)).value;
    forall j | 0 <= j < |ds| ensures ds[j].name in table && table[ds[j].name] == (ds[j].id, ds[j].subdomain) {
      var name := ds[j].name;
      assert entries[j].0.String? && entries[j].0.text == name;
      assert name in KeyNames(entries);
      var last := LastWhere(entries, HasKey(name));
      assert HasKey(name)(entries[j]);
      var i :| 0 <= i < |entries| && entries[i] == last.value && HasKey(name)(entries[i]) &&
               forall k :: i < k < |entries| ==> !HasKey(name)(entries[k]);
      assert ds[i].name == name;
      assert i == j;
      InfoYamlRead(ds[j]);
    }
  }

  /** One listed enrollment resolves against a table that knows its school. */
  lemma EnrollmentRead(e: EnrollmentDecl, table: SchoolMap)
    requires e.school in table
    ensures ExtractEnrollment(EnrollmentYaml(e), table) ==
              Ok(Enrollment(table[e.school].1, table[e.school].0, e.className))
  {
    var entries := EnrollmentYaml(e).entries;
    ExtractEnrollmentSpec(EnrollmentYaml(e), table);
    assert SchoolRef(table)(entries[0]);
    assert !SchoolRef(table)(entries[1]);
    assert LastWhere(entries[1..], SchoolRef(table)) == None;
    assert ResolvedSchool(entries, table) == Some(table[e.school]);
    assert ClassRef()(entries[1]);
    assert LastWhere(entries[1..], ClassRef()) == Some(entries[1]);
    assert DeclaredClass(entries) == Some(e.className);
  }

  /**
   * A document declaring schools with distinct names, and enrollments that all name
   * one of them, reads back as those enrollments, in order, each carrying its school's
   * id and subdomain.
   */
  lemma DeclarationsRoundTrip(ds: seq<SchoolDecl>, es: seq<EnrollmentDecl>)
    requires DistinctNames(ds)
    requires forall i :: 0 <= i < |es| ==> Declared(ds, es[i].school)
    ensures var r := FromDocuments([DeclarationsYaml(ds, es)]);
            && r.Ok?
            && |r.value| == |es|
            && forall i, j :: 0 <= i < |es| && 0 <= j < |ds| && ds[j].name == es[i].school ==>
                 r.value[i] == Enrollment(ds[j].subdomain, ds[j].id, es[i].className)
  {
    var doc := DeclarationsYaml(ds, es);
    assert Get(doc, "schools") == Hash(SchoolEntries(ds));
    assert doc.entries[0].0 != String("enrollments");
    assert FirstValue(doc.entries[1..], "enrollments") == Some(Array(EnrollmentItems(es)));
    assert Get(doc, "enrollments") == Array(EnrollmentItems(es));
    SchoolTableRead(ds);
    var table := ExtractSchools(Hash(SchoolEntries(ds))).value;
    var items := EnrollmentItems(es);
    forall i | 0 <= i < |es|
      ensures ExtractEnrollment(items[i], table).Ok?
      ensures forall j :: 0 <= j < |ds| && ds[j].name == es[i].school ==>
                ExtractEnrollment(items[i], table) == Ok(Enrollment(ds[j].subdomain, ds[j].id, es[i].className))
    {
      var j :| 0 <= j < |ds| && ds[j].name == es[i].school;
      EnrollmentRead(es[i], table);
    }
  }
}
