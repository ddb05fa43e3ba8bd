/** The records of `src/lib/types/index.ts` that the modelled code reads. */
module Types {
  import opened Wrappers

  type UserId = string

  /** A user's profile row. */
  datatype Profile = Profile(
    id: UserId,
    email: string,
    display_name: Option<string>,
    avatar_url: Option<string>,
    created_at: string,
    updated_at: string)

  /** A journal entry row; `entry_date` is an ISO date `YYYY-MM-DD`. */
  datatype Entry = Entry(
    id: string,
    user_id: UserId,
    entry_date: string,
    thing_one: string,
    thing_two: string,
    thing_three: string,
    gratitude: Option<string>,
    tags: seq<string>,
    image_url: Option<string>,
    image_path: Option<string>,
    created_at: string,
    updated_at: string)

  /** The data of the entry form; the image fields are not read by the validator. */
  datatype EntryFormData = EntryFormData(
    entry_date: string,
    thing_one: string,
    thing_two: string,
    thing_three: string,
    gratitude: string)

  /** Optional search criteria; an absent or empty string applies no filter. */
  datatype SearchFilters = SearchFilters(
    query: Option<string>,
    dateFrom: Option<string>,
    dateTo: Option<string>,
    tags: Option<seq<string>>)

  /** JavaScript truthiness of an optional string: present and non-empty. */
  predicate Truthy(s: Option<string>) {
    s.Some? && s.value != ""
  }

  /** The two properties of a browser `File` that the validators read: its MIME type and its size in bytes. */
  datatype FileInfo = FileInfo(mimeType: string, size: nat)

  /** The `{ valid, error? }` object both file validators return. */
  datatype FileCheck = FileCheck(valid: bool, error: Option<string>)
}
