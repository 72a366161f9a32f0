/**
 * The project-submission schema of the submission form (`projectSchema`):
 * one rule per field, evaluated on every field, each failing rule adding a
 * violation. A submission is accepted when no violation is reported.
 *
 * zod's URL well-formedness test (`z.url()`) is a library routine whose
 * internals are not part of this model; it is the parameter `isUrl`.
 */
module ProjectSchema {
  import opened Wrappers
  import opened Text

  /** Upper bound on the image size in bytes: 5 MiB. */
  const MaxImageSize: nat := 5 * 1024 * 1024

  /** The MIME types an attached image may have. */
  const AcceptedImageTypes: seq<string> := ["image/jpeg", "image/jpg", "image/png", "image/webp"]

  /**
   * The status vocabulary of the form. The gallery cards use a different one
   * (featured, live, development) and no mapping between the two exists.
   */
  const Finalizado := "FINALIZADO"
  const EmDesenvolvimento := "EM DESENVOLVIMENTO"
  const AoVivo := "AO VIVO"
  const Statuses: seq<string> := [Finalizado, EmDesenvolvimento, AoVivo]

  /** The text a GitHub link must contain. */
  const GithubHost := "github.com"

  /** The browser's `File` as far as the schema inspects it. */
  datatype File = File(name: string, size: nat, mimeType: string)

  /** The form's data (`ProjectData`); `image` is the optional attachment. */
  datatype Submission = Submission(
    title: string,
    description: string,
    author: string,
    githubUrl: string,
    status: string,
    image: Option<File>)

  datatype Field = Title | Description | Author | GithubUrl | Status | Image

  datatype Issue =
    | Required              // `.min(1)` on title and author
    | TooShort              // `.min(10)` on description
    | TooLong               // `.max(60)` on description
    | InvalidUrl            // `z.url()`
    | NotGithub             // the `includes('github.com')` refinement
    | InvalidStatus         // `z.enum([...])`
    | ImageTooLarge         // the size refinement
    | UnsupportedImageType  // the MIME-type refinement

  datatype Violation = Violation(field: Field, issue: Issue)

  /** The message the schema attaches to a violation; the enum failure uses zod's default text, not modelled. */
  function Message(v: Violation): (m: Option<string>)
    ensures m.None? <==> v.issue == InvalidStatus
  {
    match v.issue
    case Required => Some(if v.field == Title then "Título é obrigatório" else "Autor é obrigatório")
    case TooShort => Some("Descrição deve ter ao menos 10 caracteres")
    case TooLong => Some("Descrição deve ter no máximo 60 caracteres")
    case InvalidUrl => Some("URL inválida")
    case NotGithub => Some("A URL deve ser do GitHub")
    case InvalidStatus => None
    case ImageTooLarge => Some("A imagem deve ter no máximo 5MB")
    case UnsupportedImageType => Some("Tipos de imagem aceitos: JPEG, JPG, PNG, WEBP")
  }

  // ---------------------------------------------------------------------------
  // One rule per field

  /** `title`: at least one code unit, with no trimming. */
  function TitleIssues(title: string): (vs: seq<Violation>)
    ensures vs == [] <==> title != []
    ensures vs != [] ==> vs == [Violation(Title, Required)]
  {
    if Utf16Length(title) < 1 then [Violation(Title, Required)] else []
  }

  /** `description`: between 10 and 60 code units inclusive; only one bound can fail. */
  function DescriptionIssues(description: string): (vs: seq<Violation>)
    ensures |vs| <= 1
    ensures vs == [] <==> 10 <= Utf16Length(description) <= 60
    ensures Violation(Description, TooShort) in vs <==> Utf16Length(description) < 10
    ensures Violation(Description, TooLong) in vs <==> Utf16Length(description) > 60
    ensures AllOfField(vs, Description)
  {
    var n := Utf16Length(description);
    (if n < 10 then [Violation(Description, TooShort)] else [])
    + (if n > 60 then [Violation(Description, TooLong)] else [])
  }

  /** `author`: at least one code unit, with no trimming. */
  function AuthorIssues(author: string): (vs: seq<Violation>)
    ensures vs == [] <==> author != []
    ensures vs != [] ==> vs == [Violation(Author, Required)]
  {
    if Utf16Length(author) < 1 then [Violation(Author, Required)] else []
  }

  /**
   * `githubUrl`: well-formed, and containing "github.com" somewhere. Both
   * tests run, so an ill-formed URL without "github.com" gets both violations.
   */
  function GithubUrlIssues(url: string, isUrl: string -> bool): (vs: seq<Violation>)
    ensures Violation(GithubUrl, InvalidUrl) in vs <==> !isUrl(url)
    ensures Violation(GithubUrl, NotGithub) in vs <==> !Includes(url, GithubHost)
    ensures AllOfField(vs, GithubUrl)
    ensures forall v :: v in vs ==> v.issue == InvalidUrl || v.issue == NotGithub
    ensures |vs| == (if isUrl(url) then 0 else 1) + (if Includes(url, GithubHost) then 0 else 1)
  {
    (if isUrl(url) then [] else [Violation(GithubUrl, InvalidUrl)])
    + (if Includes(url, GithubHost) then [] else [Violation(GithubUrl, NotGithub)])
  }

  /** `status`: exactly one of the three literals. */
  function StatusIssues(status: string): (vs: seq<Violation>)
    ensures vs == [] <==> status == "FINALIZADO" || status == "EM DESENVOLVIMENTO" || status == "AO VIVO"
    ensures vs != [] ==> vs == [Violation(Status, InvalidStatus)]
  {
    if status in Statuses then [] else [Violation(Status, InvalidStatus)]
  }

  /**
   * `image`: an absent image passes; a present one is checked for size and
   * for type, both checks running.
   */
  function ImageIssues(image: Option<File>): (vs: seq<Violation>)
    ensures image.None? ==> vs == []
    ensures Violation(Image, ImageTooLarge) in vs <==> image.Some? && image.value.size > 5242880
    ensures Violation(Image, UnsupportedImageType) in vs <==>
      image.Some? && image.value.mimeType != "image/jpeg" && image.value.mimeType != "image/jpg"
      && image.value.mimeType != "image/png" && image.value.mimeType != "image/webp"
    ensures AllOfField(vs, Image)
    ensures forall v :: v in vs ==> v.issue == ImageTooLarge || v.issue == UnsupportedImageType
    ensures |vs| == (if image.Some? && image.value.size > 5242880 then 1 else 0)
                  + (if image.Some? && image.value.mimeType !in AcceptedImageTypes then 1 else 0)
  {
    match image
    case None => []
    case Some(file) =>
      (if file.size <= MaxImageSize then [] else [Violation(Image, ImageTooLarge)])
      + (if file.mimeType in AcceptedImageTypes then [] else [Violation(Image, UnsupportedImageType)])
  }

  // ---------------------------------------------------------------------------
  // The whole schema

  /** The violations a field's rule reports, looking at that field alone. */
  function FieldIssues(s: Submission, f: Field, isUrl: string -> bool): (vs: seq<Violation>)
    ensures AllOfField(vs, f)
  {
    match f
    case Title => TitleIssues(s.title)
    case Description => DescriptionIssues(s.description)
    case Author => AuthorIssues(s.author)
    case GithubUrl => GithubUrlIssues(s.githubUrl, isUrl)
    case Status => StatusIssues(s.status)
    case Image => ImageIssues(s.image)
  }

  /** `projectSchema` applied to a submission: every field's violations, in field order. */
  function Validate(s: Submission, isUrl: string -> bool): (r: seq<Violation>)
    ensures forall v :: v in r ==> v in FieldIssues(s, v.field, isUrl)
  {
    var t, d, a := TitleIssues(s.title), DescriptionIssues(s.description), AuthorIssues(s.author);
    var u, st, im := GithubUrlIssues(s.githubUrl, isUrl), StatusIssues(s.status), ImageIssues(s.image);
    InBlocks(t, d, a, u, st, im);
    t + d + a + u + st + im
  }

  /** A violation drawn from six per-field blocks lies in the block of its own field. */
  lemma InBlocks(t: seq<Violation>, d: seq<Violation>, a: seq<Violation>,
                 u: seq<Violation>, st: seq<Violation>, im: seq<Violation>)
    requires AllOfField(t, Title) && AllOfField(d, Description) && AllOfField(a, Author)
    requires AllOfField(u, GithubUrl) && AllOfField(st, Status) && AllOfField(im, Image)
    ensures forall v :: v in t + d + a + u + st + im ==>
      v in match v.field
           case Title => t
           case Description => d
           case Author => a
           case GithubUrl => u
           case Status => st
           case Image => im
  {
  }

  /** Independent statement of acceptance: every field rule, as a conjunct. */
  ghost predicate Accepts(s: Submission, isUrl: string -> bool) {
    && s.title != []
    && 10 <= Utf16Length(s.description) <= 60
    && s.author != []
    && isUrl(s.githubUrl) && (exists i :: OccursAt(s.githubUrl, GithubHost, i))
    && s.status in {Finalizado, EmDesenvolvimento, AoVivo}
    && (s.image.Some? ==>
          s.image.value.size <= MaxImageSize
          && s.image.value.mimeType in {"image/jpeg", "image/jpg", "image/png", "image/webp"})
  }

  /** The violations of `vs` that concern field `f`, in order. */
  function OfField(vs: seq<Violation>, f: Field): (r: seq<Violation>)
    ensures forall v :: v in r ==> v in vs && v.field == f
    ensures forall v :: v in vs && v.field == f ==> v in r
  {
    if vs == [] then []
    else (if vs[0].field == f then [vs[0]] else []) + OfField(vs[1..], f)
  }

  // ---------------------------------------------------------------------------
  // Properties

  /** A submission is accepted exactly when every field rule holds. */
  lemma ValidateEmptyIffAccepts(s: Submission, isUrl: string -> bool)
    ensures Validate(s, isUrl) == [] <==> Accepts(s, isUrl)
  {
    IncludesIff(s.githubUrl, GithubHost);
  }

  lemma {:induction false} OfFieldAppend(a: seq<Violation>, b: seq<Violation>, f: Field)
    ensures OfField(a + b, f) == OfField(a, f) + OfField(b, f)
  {
    if a == [] {
      assert a + b == b;
    } else {
      assert (a + b)[0] == a[0];
      assert (a + b)[1..] == a[1..] + b;
      OfFieldAppend(a[1..], b, f);
    }
  }

  /** Every violation in `vs` concerns field `g`. */
  predicate AllOfField(vs: seq<Violation>, g: Field) {
    forall v :: v in vs ==> v.field == g
  }

  lemma {:induction false} OfFieldAll(vs: seq<Violation>, f: Field, g: Field)
    requires AllOfField(vs, g)
    ensures OfField(vs, f) == if f == g then vs else []
  {
    if vs != [] {
      assert vs[0] in vs;
      forall v | v in vs[1..] ensures v.field == g { assert v in vs; }
      OfFieldAll(vs[1..], f, g);
    }
  }

  /** Appending a block of field `g` adds that block to `g`'s selection and nothing to the others. */
  lemma OfFieldStep(prefix: seq<Violation>, block: seq<Violation>, f: Field, g: Field)
    requires AllOfField(block, g)
    ensures OfField(prefix + block, f) == OfField(prefix, f) + (if f == g then block else [])
  {
    OfFieldAppend(prefix, block, f);
    OfFieldAll(block, f, g);
  }

  /** Selecting one field from six per-field blocks in field order yields that field's block. */
  lemma OfFieldOfBlocks(t: seq<Violation>, d: seq<Violation>, a: seq<Violation>,
                        u: seq<Violation>, st: seq<Violation>, im: seq<Violation>, f: Field)
    requires AllOfField(t, Title) && AllOfField(d, Description) && AllOfField(a, Author)
    requires AllOfField(u, GithubUrl) && AllOfField(st, Status) && AllOfField(im, Image)
    ensures OfField(t + d + a + u + st + im, f)
         == match f
            case Title => t
            case Description => d
            case Author => a
            case GithubUrl => u
            case Status => st
            case Image => im
  {
    var p2 := t + d;
    var p3 := p2 + a;
    var p4 := p3 + u;
    var p5 := p4 + st;
    OfFieldAll(t, f, Title);
    OfFieldStep(t, d, f, Description);
    OfFieldStep(p2, a, f, Author);
    OfFieldStep(p3, u, f, GithubUrl);
    OfFieldStep(p4, st, f, Status);
    OfFieldStep(p5, im, f, Image);
  }

  /**
   * A failing field does not hide another field's violation: the violations
   * Validate reports for field `f` are exactly what `f`'s own rule reports.
   */
  lemma FieldViolationsIndependent(s: Submission, f: Field, isUrl: string -> bool)
    ensures OfField(Validate(s, isUrl), f) == FieldIssues(s, f, isUrl)
  {
    OfFieldOfBlocks(TitleIssues(s.title), DescriptionIssues(s.description), AuthorIssues(s.author),
                    GithubUrlIssues(s.githubUrl, isUrl), StatusIssues(s.status), ImageIssues(s.image), f);
  }

  /** The position of a field in the schema's key order. */
  function Rank(f: Field): nat {
    match f
    case Title => 0
    case Description => 1
    case Author => 2
    case GithubUrl => 3
    case Status => 4
    case Image => 5
  }

  /** No violation comes after one of a later field. */
  predicate InFieldOrder(r: seq<Violation>) {
    forall i, j :: 0 <= i < j < |r| ==> Rank(r[i].field) <= Rank(r[j].field)
  }

  /** Six per-field blocks joined in key order are in key order. */
  lemma OrderOfBlocks(t: seq<Violation>, d: seq<Violation>, a: seq<Violation>,
                      u: seq<Violation>, st: seq<Violation>, im: seq<Violation>)
    requires AllOfField(t, Title) && AllOfField(d, Description) && AllOfField(a, Author)
    requires AllOfField(u, GithubUrl) && AllOfField(st, Status) && AllOfField(im, Image)
    ensures InFieldOrder(t + d + a + u + st + im)
  {
  }

  /** Violations are reported in the schema's key order: title, description, author, githubUrl, status, image. */
  lemma ValidateInFieldOrder(s: Submission, isUrl: string -> bool)
    ensures InFieldOrder(Validate(s, isUrl))
  {
    OrderOfBlocks(TitleIssues(s.title), DescriptionIssues(s.description), AuthorIssues(s.author),
                  GithubUrlIssues(s.githubUrl, isUrl), StatusIssues(s.status), ImageIssues(s.image));
  }

  /** An empty title is reported as Required whatever the other fields hold; likewise the author. */
  lemma MissingTitleOrAuthorReported(s: Submission, isUrl: string -> bool)
    ensures s.title == [] ==> OfField(Validate(s, isUrl), Title) == [Violation(Title, Required)]
    ensures s.author == [] ==> OfField(Validate(s, isUrl), Author) == [Violation(Author, Required)]
  {
    FieldViolationsIndependent(s, Title, isUrl);
    FieldViolationsIndependent(s, Author, isUrl);
  }

  /** No trimming: a title or author made of a single space is accepted. */
  lemma BlankTextIsNotEmpty()
    ensures TitleIssues(" ") == [] && AuthorIssues(" ") == []
    ensures TitleIssues("") == [Violation(Title, Required)]
  {
  }

  /** For BMP text the description bounds are on the character count: 9 fails, 10 and 60 pass, 61 fails. */
  lemma DescriptionBoundsForBmp(d: string)
    requires AllBmp(d)
    ensures DescriptionIssues(d) == [] <==> 10 <= |d| <= 60
    ensures |d| == 9 ==> DescriptionIssues(d) == [Violation(Description, TooShort)]
    ensures |d| == 61 ==> DescriptionIssues(d) == [Violation(Description, TooLong)]
  {
    Utf16LengthOfBmp(d);
  }

  /** Characters outside the BMP count twice: 31 emoji are too long for a description. */
  lemma DescriptionCountsCodeUnits(d: string)
    requires |d| == 31 && forall i :: 0 <= i < |d| ==> !InBmp(d[i])
    ensures DescriptionIssues(d) == [Violation(Description, TooLong)]
  {
    Utf16LengthOfAstral(d);
  }

  /** Mixed text: seven BMP characters and one emoji are nine code units, so the description is too short. */
  lemma MixedDescriptionTooShort(bmp: string, emoji: char)
    requires |bmp| == 7 && AllBmp(bmp) && !InBmp(emoji)
    ensures DescriptionIssues(bmp + [emoji]) == [Violation(Description, TooShort)]
  {
    Utf16LengthAppend(bmp, [emoji]);
    Utf16LengthOfBmp(bmp);
    Utf16LengthOfChar(emoji);
  }

  /** A GitHub link passes exactly when zod calls it a URL and "github.com" occurs anywhere in it. */
  lemma GithubUrlAcceptedIff(url: string, isUrl: string -> bool)
    ensures GithubUrlIssues(url, isUrl) == [] <==> isUrl(url) && exists i :: OccursAt(url, GithubHost, i)
  {
    IncludesIff(url, GithubHost);
  }

  /** The GitHub test is a substring test, not a host test. */
  lemma GithubTestIsSubstring(isUrl: string -> bool)
    requires isUrl("https://example.com/github.com")
    ensures GithubUrlIssues("https://example.com/github.com", isUrl) == []
  {
    assert "https://example.com/github.com" == "https://example.com/" + GithubHost + "";
    InfixIncluded("https://example.com/", GithubHost, "");
  }

  /** The repository's own link is accepted when zod calls it a URL. */
  lemma GithubRepositoryUrlAccepted(isUrl: string -> bool)
    requires isUrl("https://" + GithubHost + "/seal-ufpe/mural-projetos")
    ensures GithubUrlIssues("https://" + GithubHost + "/seal-ufpe/mural-projetos", isUrl) == []
  {
    InfixIncluded("https://", GithubHost, "/seal-ufpe/mural-projetos");
  }

  /** A well-formed link to another forge is rejected as not GitHub, and only for that. */
  lemma GitlabUrlRejected(isUrl: string -> bool)
    requires isUrl("https://gitlab.com/x/y")
    ensures GithubUrlIssues("https://gitlab.com/x/y", isUrl) == [Violation(GithubUrl, NotGithub)]
  {
    MissingCharNotIncluded("https://gitlab.com/x/y", GithubHost, 4);
  }

  /** Text that is not a URL gets both violations: the GitHub refinement still runs. */
  lemma NonUrlGetsBothViolations(isUrl: string -> bool)
    requires !isUrl("not-a-url")
    ensures GithubUrlIssues("not-a-url", isUrl)
         == [Violation(GithubUrl, InvalidUrl), Violation(GithubUrl, NotGithub)]
  {
    MissingCharNotIncluded("not-a-url", GithubHost, 0);
  }

  /** Image boundaries: 5242880 bytes pass, 5242881 do not; image/gif is not an accepted type. */
  lemma ImageBoundaries(name: string)
    ensures ImageIssues(Some(File(name, 5242880, "image/png"))) == []
    ensures ImageIssues(Some(File(name, 5242881, "image/png"))) == [Violation(Image, ImageTooLarge)]
    ensures ImageIssues(Some(File(name, 1024, "image/gif"))) == [Violation(Image, UnsupportedImageType)]
    ensures ImageIssues(Some(File(name, 5242881, "image/gif")))
         == [Violation(Image, ImageTooLarge), Violation(Image, UnsupportedImageType)]
  {
  }
}
