# Project-submission form of the student-project gallery

The gallery ("mural de projetos") lets a student submit a project through a
form. Before anything is sent, the form's schema (`projectSchema`) checks the
submission field by field. This project models that schema and the form state
next to it, and proves what they guarantee:

- `text.dfy` (module `Text`): the two JavaScript string operations the schema
  uses. `Utf16Length` is `s.length`, which counts UTF-16 code units. `Includes`
  is `s.includes(sub)`.
- `schema.dfy` (module `ProjectSchema`): the constants `MaxImageSize` (5 MiB)
  and `AcceptedImageTypes`, the `Submission` and `File` data, and one rule per
  field. `Validate` returns the list of field violations in field order. A
  submission is accepted when that list is empty. zod's URL well-formedness
  test (`z.url()`) is not modelled: every function that needs it takes it as
  the parameter `isUrl`.
- `form.dfy` (module `ProjectFormState`): the form's state (`formData`,
  `selectedImage`, `imagePreview`) as a class. Its constructor gives the
  initial values. Its method `HandleImageChange` is the image input's change
  handler. The preview handle from `URL.createObjectURL` is a freshly
  allocated `ObjectUrl` object that refers to its file.
- `wrappers.dfy` (module `Wrappers`): `Option`.

Three behaviours of the code are worth stating:

- `title` is not trimmed, so `" "` is a valid title.
- zod keeps running the other checks after a failed check. So a `githubUrl`
  that is not a URL and lacks `github.com` gets both `InvalidUrl` and
  `NotGithub`. Likewise an image can be both too large and of a wrong type.
- `github.com` is a substring test on the whole URL, not a host test.

The form's statuses (`FINALIZADO`, `EM DESENVOLVIMENTO`, `AO VIVO`) differ
from the gallery card's (`featured`, `live`, `development`). No mapping
between them exists in the code, and the model does not add one.

## Model

| member | source | states |
|---|---|---|
| `Text.Utf16Length` | app/form/page.tsx:14-19 | the length zod measures lies between the character count and twice it, and is zero only for the empty string |
| `Text.Utf16LengthOfChar` | app/form/page.tsx:14-19 | a single character measures one unit inside the BMP and two outside it |
| `Text.Utf16LengthAppend` | app/form/page.tsx:14-19 | the measured length of a concatenation is the sum of the parts' lengths, so with the per-character value it is fixed for all text |
| `Text.Utf16LengthOfBmp` | app/form/page.tsx:14-19 | for text of BMP characters the measured length is the character count |
| `Text.Utf16LengthOfAstral` | app/form/page.tsx:16-17 | characters outside the BMP count as two units each |
| `Text.Includes` | app/form/page.tsx:22 | `includes` can only succeed when the searched text is no longer than the text |
| `Text.IncludesIff` | app/form/page.tsx:22 | `includes` holds exactly when the substring occurs at some position |
| `Text.MissingCharNotIncluded` | app/form/page.tsx:22 | a text lacking one of the substring's characters does not include it |
| `Text.InfixIncluded` | app/form/page.tsx:22 | a text built around the substring includes it |
| `ProjectSchema.Message` | app/form/page.tsx:13-33 | every violation carries the schema's custom message, except the status one, which uses zod's default |
| `ProjectSchema.TitleIssues` | app/form/page.tsx:14-15 | a title passes exactly when it is non-empty, with no trimming; otherwise the one violation is Required |
| `ProjectSchema.DescriptionIssues` | app/form/page.tsx:16-17 | a description passes exactly when its length is in 10..60; below that it is TooShort, above it TooLong, never both |
| `ProjectSchema.AuthorIssues` | app/form/page.tsx:18-19 | an author passes exactly when it is non-empty, with no trimming; otherwise the one violation is Required |
| `ProjectSchema.GithubUrlIssues` | app/form/page.tsx:20-24 | InvalidUrl is reported exactly when zod rejects the URL; NotGithub exactly when "github.com" is not included; each independently, each at most once, and nothing else |
| `ProjectSchema.StatusIssues` | app/form/page.tsx:25 | a status passes exactly when it equals one of the three literals; otherwise the one violation is InvalidStatus |
| `ProjectSchema.ImageIssues` | app/form/page.tsx:10-32 | no image passes; a present image is TooLarge exactly when its size exceeds 5242880 and of UnsupportedImageType exactly when its MIME type is none of the four, independently, each at most once and nothing else, so a present image of valid size and type passes |
| `ProjectSchema.FieldIssues` | app/form/page.tsx:13-33 | each field's rule reports only violations of that field |
| `ProjectSchema.OfField` | app/form/page.tsx:13-33 | selecting one field's violations keeps exactly the violations of that field in the list |
| `ProjectSchema.Validate` | app/form/page.tsx:13-33 | every violation reported is one that the rule of its own field reports; every field is checked (see ValidateEmptyIffAccepts, FieldViolationsIndependent and ValidateInFieldOrder) |
| `ProjectSchema.ValidateInFieldOrder` | app/form/page.tsx:13-33 | violations come in the schema's key order: title, description, author, githubUrl, status, image |
| `ProjectSchema.ValidateEmptyIffAccepts` | app/form/page.tsx:13-33 | the schema reports no violation exactly when every field rule holds |
| `ProjectSchema.FieldViolationsIndependent` | app/form/page.tsx:13-33 | the violations reported for a field are exactly what that field's own rule reports, whatever the other fields hold |
| `ProjectSchema.MissingTitleOrAuthorReported` | app/form/page.tsx:14-19 | an empty title or author is reported as exactly one Required violation for that field, independent of the other fields |
| `ProjectSchema.BlankTextIsNotEmpty` | app/form/page.tsx:14-19 | a single space is an accepted title and author; the empty title is Required |
| `ProjectSchema.DescriptionBoundsForBmp` | app/form/page.tsx:16-17 | for BMP text a description passes exactly at 10..60 characters; 9 is TooShort, 61 TooLong |
| `ProjectSchema.DescriptionCountsCodeUnits` | app/form/page.tsx:16-17 | 31 characters outside the BMP are TooLong, since they are 62 code units |
| `ProjectSchema.MixedDescriptionTooShort` | app/form/page.tsx:16-17 | seven BMP characters plus one emoji measure nine units and are TooShort |
| `ProjectSchema.GithubUrlAcceptedIff` | app/form/page.tsx:20-24 | the link passes exactly when zod accepts it as a URL and "github.com" occurs at some position in it |
| `ProjectSchema.GithubTestIsSubstring` | app/form/page.tsx:22 | a URL whose host is not GitHub but whose path holds "github.com" passes |
| `ProjectSchema.GithubRepositoryUrlAccepted` | app/form/page.tsx:20-24 | the repository's own GitHub link passes when zod accepts it as a URL |
| `ProjectSchema.GitlabUrlRejected` | app/form/page.tsx:20-24 | a well-formed GitLab link is rejected as NotGithub and nothing else |
| `ProjectSchema.NonUrlGetsBothViolations` | app/form/page.tsx:20-24 | "not-a-url" gets both InvalidUrl and NotGithub |
| `ProjectSchema.ImageBoundaries` | app/form/page.tsx:10-32 | a PNG of 5242880 bytes passes, one of 5242881 is TooLarge, a GIF is UnsupportedImageType, and an oversized GIF gets both |
| `ProjectFormState.ObjectUrl.constructor` | app/form/page.tsx:54 | a new preview handle refers to the file it previews |
| `ProjectFormState.InitialFormData` | app/form/page.tsx:41-47 | the initial texts are empty, the status is "EM DESENVOLVIMENTO" (itself one of the three statuses) and there is no image |
| `ProjectFormState.FirstFile` | app/form/page.tsx:50-51 | the chosen file is present exactly when the input has a non-empty file list, and it is the first one |
| `ProjectFormState.InitialFormDataRejected` | app/form/page.tsx:41-47 | the initial form data fails on title, description, author and GitHub link (and on URL form when zod rejects the empty string), so it is rejected |
| `ProjectFormState.ProjectForm.constructor` | app/form/page.tsx:39-47 | the form starts with the initial data, no selected image and no preview |
| `ProjectFormState.ProjectForm.HandleImageChange` | app/form/page.tsx:49-55 | with no chosen file nothing changes; with one, it becomes the selected image and the preview is a fresh handle to it; the form data is untouched; a preview always shows the selected image |

## Left out

- zod's URL parser (`z.url()`, app/form/page.tsx:21): it is library code, so it is the parameter `isUrl`.
- `URL.createObjectURL` (app/form/page.tsx:54): modelled only as allocating a fresh handle. The old handle is never revoked, and the model adds no release step.
- React's `useState` re-rendering, `useRouter` and navigation (app/form/page.tsx:38): only the resulting field values are modelled.
- The submit handler, the multipart payload, the network call, the in-flight flag and the response handling: the submit handler and everything after `handleImageChange` are out of scope, and they are network I/O.
- Setters for the text fields: no such handler appears in the code modelled here.
- zod's default message for a bad status: its text is library-defined, so `Message` returns `None` for it.
- Values whose runtime type is wrong (a non-string title, a non-`File` image): the `Submission` type rules them out. zod would report a type error for them.
- app/components/ProjectCard.tsx, app/components/Header.tsx and app/page.tsx: rendering and hard-coded demo data.
- ProjectSchema.GithubUrlIssues: the "github.com" refinement (app/form/page.tsx:22) is modelled as seeing the URL as typed, which matches zod versions that pass the trimmed input on; releases that pass the normalised `href` (host lower-cased, `..` segments resolved) would accept e.g. "https://GitHub.com/a/b", which the model rejects as NotGithub.
- Lone UTF-16 surrogates: a Dafny `string` holds Unicode scalar values only, so JavaScript strings with an unpaired surrogate are not representable; `Utf16Length` covers well-formed text.
