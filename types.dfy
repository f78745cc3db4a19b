/** The two enumerations of the database schema the core uses. */
module Types {

  /** `StoryStatus`: 'draft' | 'published' | 'archived'. */
  datatype StoryStatus = Draft | Published | Archived

  /** `Visibility`: 'public' | 'private' | 'unlisted'. */
  datatype Visibility = Public | Private | Unlisted

  /** The story editor's visibility radio offers only 'public' and 'private'. */
  type EditorVisibility = v: Visibility | v != Unlisted witness Public
}
