/**
 * The state of the project-submission form: the data being edited, the
 * selected image and the preview of that image, with the one transition the
 * form defines on them, the image input's change handler.
 */
module ProjectFormState {
  import opened Wrappers
  import opened Text
  import opened ProjectSchema

  /**
   * A preview handle as `URL.createObjectURL` hands it out: an opaque object,
   * new on every call, that refers to the file it previews.
   */
  class ObjectUrl {
    const file: File

    constructor (file: File)
      ensures this.file == file
    {
      this.file := file;
    }
  }

  /** The data the form starts with: empty texts, status "EM DESENVOLVIMENTO", no image. */
  function InitialFormData(): (d: Submission)
    ensures d.title == [] && d.description == [] && d.author == [] && d.githubUrl == []
    ensures d.status == "EM DESENVOLVIMENTO" && d.status in Statuses && d.image.None?
  {
    Submission("", "", "", "", EmDesenvolvimento, None)
  }

  /** `e.target.files?.[0]`: the first chosen file, if the input has a file list and it is not empty. */
  function FirstFile(files: Option<seq<File>>): (f: Option<File>)
    ensures f.Some? <==> files.Some? && files.value != []
    ensures f.Some? ==> f.value == files.value[0]
  {
    match files
    case None => None
    case Some(list) => if list == [] then None else Some(list[0])
  }

  /** The form untouched is rejected: title, description and author are empty and the link is not GitHub. */
  lemma InitialFormDataRejected(isUrl: string -> bool)
    ensures Validate(InitialFormData(), isUrl) ==
      [Violation(Title, Required), Violation(Description, TooShort), Violation(Author, Required)]
      + (if isUrl("") then [] else [Violation(GithubUrl, InvalidUrl)])
      + [Violation(GithubUrl, NotGithub)]
    ensures Validate(InitialFormData(), isUrl) != []
  {
  }

  class ProjectForm {
    var formData: Submission
    var selectedImage: Option<File>
    var imagePreview: Option<ObjectUrl>

    /** The preview, when there is one, shows the selected image. */
    predicate PreviewShowsSelection()
      reads this
    {
      imagePreview.Some? ==> selectedImage.Some? && imagePreview.value.file == selectedImage.value
    }

    /** Mounting the form: initial data, no image, no preview. */
    constructor ()
      ensures formData == InitialFormData()
      ensures selectedImage == None && imagePreview == None
      ensures PreviewShowsSelection()
    {
      formData := InitialFormData();
      selectedImage := None;
      imagePreview := None;
    }

    /**
     * `handleImageChange`: with no chosen file nothing changes; otherwise the
     * file becomes the selected image and a new preview handle for it replaces
     * the old one, which is not released. The form data is never touched.
     */
    method HandleImageChange(files: Option<seq<File>>)
      modifies this
      ensures formData == old(formData)
      ensures FirstFile(files).None? ==>
        selectedImage == old(selectedImage) && imagePreview == old(imagePreview)
      ensures FirstFile(files).Some? ==>
        && selectedImage == FirstFile(files)
        && imagePreview.Some? && fresh(imagePreview.value)
        && imagePreview.value.file == FirstFile(files).value
      ensures old(PreviewShowsSelection()) ==> PreviewShowsSelection()
    {
      var file := FirstFile(files);
      if file.None? {
        return;
      }
      selectedImage := file;
      var url := new ObjectUrl(file.value);
      imagePreview := Some(url);
    }
  }
}
