/** The prompt builder: `get_prompt` picks one of three audience templates,
    or a generic fallback, and places the chunk verbatim after a blank
    line. The role string is normalised once where it is read. */
module Prompts {
  import opened Text

  /** The audiences `get_prompt` distinguishes; `General` is the fallback. */
  datatype Audience = Public | Student | Lawyer | General

  /** Exact string comparison against the three role names; anything else,
      including an unnormalised spelling such as "Lawyer", falls back. */
  function AudienceOf(role: string): Audience
  {
    if role == "public" then Public
    else if role == "student" then Student
    else if role == "lawyer" then Lawyer
    else General
  }

  // The verifier reads individual characters of a string literal only
  // when the literal is short, so the longer instructions are spelled in
  // pieces of a few dozen characters; concatenated, each is exactly its
  // template's text up to the blank line.
  const PublicInstruction: string :=
    "Explain the following legal text in "
    + "**simple terms** so a general person "
    + "can understand:"
  const StudentInstruction: string :=
    "Summarize the following legal text like a "
    + "**law student\U{2019}s notes**. "
    + "Include constitutional provisions, "
    + "case laws (if any), and legal doctrines:"
  /** The lawyer instruction up to its list of case-brief sections. */
  const BriefLead: string :=
    "Summarize the following legal text as a "
    + "**professional case brief for a lawyer**. "
    + "Use structured sections: "
  /** The sections a case brief is asked to have, in two halves. */
  const BriefSections: string := BriefFirst + BriefSecond
  const BriefFirst: string := "Facts" + ", " + "Issues" + ", " + "Arguments" + ", "
  const BriefSecond: string := "Court Reasoning" + ", " + "Judgment" + ", and " + "Key Takeaways" + ":"
  const LawyerInstruction: string := BriefLead + BriefSections
  const GeneralInstruction: string :=
    "Summarize this legal text concisely:"

  /** The blank line between the instruction and the chunk. */
  const Gap: string := "\n\n"

  function Instruction(a: Audience): string
  {
    match a
    case Public => PublicInstruction
    case Student => StudentInstruction
    case Lawyer => LawyerInstruction
    case General => GeneralInstruction
  }

  /** Everything of a prompt that comes before the chunk. */
  function Header(a: Audience): string
  {
    Instruction(a) + Gap
  }

  /** `get_prompt(role, chunk)`. */
  function Prompt(role: string, chunk: string): (p: string)
    ensures StartsWith(p, Instruction(AudienceOf(role)))
    ensures EndsWith(p, Gap + chunk)
    ensures |p| == |Instruction(AudienceOf(role))| + |Gap| + |chunk|
  {
    Header(AudienceOf(role)) + chunk
  }

  /** Reads a prompt back: which template it uses and the chunk it carries. */
  function ParsePrompt(p: string): Option<(Audience, string)>
  {
    if StartsWith(p, Header(Public)) then Some((Public, p[|Header(Public)|..]))
    else if StartsWith(p, Header(Student)) then Some((Student, p[|Header(Student)|..]))
    else if StartsWith(p, Header(Lawyer)) then Some((Lawyer, p[|Header(Lawyer)|..]))
    else if StartsWith(p, Header(General)) then Some((General, p[|Header(General)|..]))
    else None
  }

  /** No template header is a prefix of another one's prompts: any two
      distinct headers differ at an index inside both. */
  lemma HeadersDiffer(a: Audience, b: Audience)
    requires a != b
    ensures exists i :: 0 <= i < |Header(a)| && i < |Header(b)| && Header(a)[i] != Header(b)[i]
  {
    var i := if a == Public || b == Public then 0
      else if a == General || b == General then 12
      else 35;
    PublicStart();
    StudentStart();
    LawyerStart();
    GeneralStart();
    assert Header(a)[i] != Header(b)[i];
  }

  // The characters at which the headers tell each other apart.

  lemma PublicStart()
    ensures |Header(Public)| > 35 && Header(Public)[0] == 'E'
  {
  }

  lemma GeneralStart()
    ensures |Header(General)| > 35 && Header(General)[0] == 'S' && Header(General)[12] == 'i'
  {
  }

  lemma StudentStart()
    ensures |Header(Student)| > 35 && Header(Student)[0] == 'S'
      && Header(Student)[12] == 'e' && Header(Student)[35] == 'l'
  {
    var s1 := "Summarize the following legal text like a ";
    assert Header(Student)[..|s1|] == s1;
    assert s1[0] == 'S' && s1[12] == 'e' && s1[35] == 'l';
  }

  lemma LawyerStart()
    ensures |Header(Lawyer)| > 35 && Header(Lawyer)[0] == 'S'
      && Header(Lawyer)[12] == 'e' && Header(Lawyer)[35] == 'a'
  {
    var l1 := "Summarize the following legal text as a ";
    assert Header(Lawyer)[..|l1|] == l1;
    assert l1[0] == 'S' && l1[12] == 'e' && l1[35] == 'a';
  }

  /** A prompt under one header never starts with a different header. */
  lemma OtherHeaderAbsent(a: Audience, b: Audience, chunk: string)
    requires a != b
    ensures !StartsWith(Header(a) + chunk, Header(b))
  {
    HeadersDiffer(a, b);
    var i :| 0 <= i < |Header(a)| && i < |Header(b)| && Header(a)[i] != Header(b)[i];
    assert (Header(a) + chunk)[i] == Header(a)[i];
  }

  /** The prompt determines the template and the chunk it was built from:
      reading it back gives exactly the audience and the chunk. */
  lemma ParsePromptInverse(role: string, chunk: string)
    ensures ParsePrompt(Prompt(role, chunk)) == Some((AudienceOf(role), chunk))
  {
    var a := AudienceOf(role);
    var p := Prompt(role, chunk);
    assert p[..|Header(a)|] == Header(a);
    assert p[|Header(a)|..] == chunk;
    if a != Public { OtherHeaderAbsent(a, Public, chunk); }
    if a != Student { OtherHeaderAbsent(a, Student, chunk); }
    if a != Lawyer { OtherHeaderAbsent(a, Lawyer, chunk); }
  }

  /** Two prompts are equal exactly when they use the same template and
      embed the same chunk. */
  lemma PromptInjective(role1: string, chunk1: string, role2: string, chunk2: string)
    ensures Prompt(role1, chunk1) == Prompt(role2, chunk2)
      <==> AudienceOf(role1) == AudienceOf(role2) && chunk1 == chunk2
  {
    ParsePromptInverse(role1, chunk1);
    ParsePromptInverse(role2, chunk2);
  }

  /** Any role other than the three names gets the generic template. */
  lemma FallbackRole(role: string, chunk: string)
    requires role != "public" && role != "student" && role != "lawyer"
    ensures Prompt(role, chunk) == GeneralInstruction + "\n\n" + chunk
  {
  }

  /** The lawyer template names every section of a case brief. */
  lemma LawyerBriefSections(role: string, chunk: string)
    requires AudienceOf(role) == Lawyer
    ensures var p := Prompt(role, chunk);
      Mentions(p, "Facts") && Mentions(p, "Issues") && Mentions(p, "Arguments")
      && Mentions(p, "Court Reasoning") && Mentions(p, "Judgment") && Mentions(p, "Key Takeaways")
  {
    var rest := Gap + chunk;
    var p := Prompt(role, chunk);
    assert p == BriefLead + (BriefFirst + BriefSecond) + rest;
    ConcatAssoc(BriefLead, BriefFirst, BriefSecond);
    ConcatAssoc(BriefLead + BriefFirst, BriefSecond, rest);
    ConcatAssoc(BriefLead, BriefFirst, BriefSecond + rest);
    FirstSections();
    SecondSections();
    MentionsInside(BriefLead, BriefFirst, BriefSecond + rest, "Facts");
    MentionsInside(BriefLead, BriefFirst, BriefSecond + rest, "Issues");
    MentionsInside(BriefLead, BriefFirst, BriefSecond + rest, "Arguments");
    MentionsInside(BriefLead + BriefFirst, BriefSecond, rest, "Court Reasoning");
    MentionsInside(BriefLead + BriefFirst, BriefSecond, rest, "Judgment");
    MentionsInside(BriefLead + BriefFirst, BriefSecond, rest, "Key Takeaways");
  }

  /** The first half of the section list names the first three sections. */
  lemma FirstSections()
    ensures Mentions(BriefFirst, "Facts") && Mentions(BriefFirst, "Issues") && Mentions(BriefFirst, "Arguments")
  {
    MentionsBetween(BriefFirst, "", "Facts", ", " + "Issues" + ", " + "Arguments" + ", ");
    MentionsBetween(BriefFirst, "Facts" + ", ", "Issues", ", " + "Arguments" + ", ");
    MentionsBetween(BriefFirst, "Facts" + ", " + "Issues" + ", ", "Arguments", ", ");
  }

  /** The second half of the section list names the last three sections. */
  lemma SecondSections()
    ensures Mentions(BriefSecond, "Court Reasoning") && Mentions(BriefSecond, "Judgment")
      && Mentions(BriefSecond, "Key Takeaways")
  {
    MentionsBetween(BriefSecond, "", "Court Reasoning", ", " + "Judgment" + ", and " + "Key Takeaways" + ":");
    MentionsBetween(BriefSecond, "Court Reasoning" + ", ", "Judgment", ", and " + "Key Takeaways" + ":");
    MentionsBetween(BriefSecond, "Court Reasoning" + ", " + "Judgment" + ", and ", "Key Takeaways", ":");
  }

  /** The role as typed is trimmed and lower-cased before use. */
  function NormalizeRole(raw: string): string
  {
    Lower(Strip(raw))
  }

  /** Normalising a normalised role changes nothing. */
  lemma NormalizeRoleIdempotent(raw: string)
    ensures NormalizeRole(NormalizeRole(raw)) == NormalizeRole(raw)
  {
    var s := Strip(raw);
    StripLower(s);
    StripIdempotent(raw);
    LowerIdempotent(s);
  }
}
