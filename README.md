# Marketplace admin screen: listing management

This project models the listing-management state of the marketplace's admin
screen (`pages/Admin.tsx`). The screen holds three pieces of state: an ordered
array of product listings, a flag for the edit/add modal, and an edit buffer
that is either empty or holds one listing. Its handlers change that state in
small atomic steps:

- delete every listing with a given id, once the operator confirms;
- open the modal on a copy of an existing listing ("edit");
- open the modal on a blank listing with a fresh id ("add");
- change one field of the buffer;
- save the buffer, which is an upsert by id: the first listing with the same
  id is replaced in place, or else the buffer goes to the front; the modal then
  closes and the buffer is cleared;
- close the modal through the backdrop or the close button, keeping the buffer.

The modal's heading reads "edit" when the buffer's id is nonzero and already
present in the array, and "add" otherwise.

Files:

- `wrappers.dfy` (module `Wrappers`): the `Option` type used for the buffer.
- `listings.dfy` (module `Listings`): the `Product` record,
  the one-field edits, and the pure sequence operations that the handlers use
  to build the new array (`FindIndex`, `FilterOut`, `Upsert`, `HasId`,
  `IsEditMode`), with their lemmas.
- `admin.dfy` (module `Admin`): the class `AdminState` with the three state
  fields and one method per handler. Each method's `ensures` gives its whole
  new state in terms of the old one and the functions in `Listings`.

Listing ids are pairwise distinct (`DistinctIds`) whenever the seed data has
distinct ids: both mutating steps, save and confirmed delete, preserve that
property, even when a fresh id collides with an existing one.

`handleDelete` filters, so a delete removes every listing with that id, not only
the first; `FilterOut` does the same.

## Model

| member | source | states |
|---|---|---|
| `Listings.HasId` | pages/Admin.tsx:134 | The presence test itself: some listing carries the id. `FindIndex` is -1 exactly when it fails, and `UpsertIds` and `TitleMatchesSave` relate it to the save. |
| `Listings.IsEditMode` | pages/Admin.tsx:134-135 | The title's decision rule itself: the buffer's id is nonzero and present. `TitleMatchesSave` and `ZeroIdTitleMismatch` relate it to what the save does. |
| `Listings.FindIndex` | pages/Admin.tsx:39 | The result is -1 exactly when no listing has the id; otherwise it is the first position whose listing has the id. |
| `Listings.FilterOut` | pages/Admin.tsx:13 | Every listing with the id is removed. Every other listing is kept with its multiplicity. No listing with the id remains, and an absent id leaves the array unchanged. |
| `Listings.FilterOutAppend` | pages/Admin.tsx:13 | Filtering a concatenation filters each part in place, so the kept listings stay in their original relative order. |
| `Listings.FilterOutIdempotent` | pages/Admin.tsx:12-13 | Deleting the same id twice is the same as deleting it once. |
| `Listings.FilterOutKeepsDistinct` | pages/Admin.tsx:13 | A delete keeps ids pairwise distinct. |
| `Listings.Upsert` | pages/Admin.tsx:39-48 | When the id is present, the length is the same, the buffer sits at the first position with that id, and every other position is unchanged. When it is absent, the length grows by one, the buffer is at the front and the old array is the tail. |
| `Listings.UpsertKeepsDistinct` | pages/Admin.tsx:39-48 | A save keeps ids pairwise distinct. |
| `Listings.UpsertIds` | pages/Admin.tsx:39-48 | After a save, an id is present exactly when it was present before or it is the buffer's id. |
| `Listings.SaveUnchangedEdit` | pages/Admin.tsx:39-45 | When ids are distinct, saving an unchanged copy of a listing leaves the array as it was. |
| `Listings.SaveDuplicateEdit` | pages/Admin.tsx:39-45 | With two listings sharing an id, saving the second one overwrites the first, so the round trip above needs distinct ids. |
| `Listings.ApplyInput` | pages/Admin.tsx:55-57 | The edited key holds the new value and every other key keeps its old value. |
| `Listings.ApplyInputIsUnique` | pages/Admin.tsx:56 | Any listing that agrees with the buffer on every other key, and holds the new value under the edited key, is the result of the edit. |
| `Listings.TitleMatchesSave` | pages/Admin.tsx:134-135 | For a nonzero id, the edit heading shows exactly when the save will replace in place. The add heading shows exactly when the save will put the buffer at the front. |
| `Listings.ZeroIdTitleMismatch` | pages/Admin.tsx:134-135 | For id 0 with a listing of id 0 present, the heading reads "add", yet the save replaces in place. |
| `Admin.AdminState.constructor` | pages/Admin.tsx:7-9 | The screen starts with the seed listings, the modal closed and no buffer. |
| `Admin.AdminState.Heading` | pages/Admin.tsx:122-135 | A heading is shown exactly when the modal is open and a buffer exists. It is the edit heading exactly when the buffer's id is nonzero and present. |
| `Admin.AdminState.Delete` | pages/Admin.tsx:11-15 | A confirmed delete leaves the filtered array, with no listing of that id. An unconfirmed delete, or the delete of an absent id, changes nothing. Distinct ids stay distinct, and the modal and the buffer are untouched. |
| `Admin.AdminState.Edit` | pages/Admin.tsx:17-20 | The buffer holds a copy equal to the listing and the modal is open. The array is unchanged. |
| `Admin.AdminState.AddNew` | pages/Admin.tsx:22-32 | The buffer holds the fresh id, an empty name, category and description, price 0 and the placeholder image. The modal is open and the array is unchanged. |
| `Admin.AdminState.Save` | pages/Admin.tsx:34-53 | With no buffer, nothing changes. With a buffer, the array becomes the upsert of the buffer, the modal is closed and the buffer is empty. Distinct ids stay distinct. |
| `Admin.AdminState.InputChange` | pages/Admin.tsx:55-57 | A buffer gets the one-key edit. An empty buffer stays empty. The array and the modal flag are untouched. |
| `Admin.AdminState.CloseModal` | pages/Admin.tsx:124-127 | The modal is closed. The buffer and the array are kept. |

## Left out

- Rendering (the table, the modal markup, styling and icons) is presentation. Only the condition under which the modal shows a heading is modelled.
- The browser's confirmation dialog is modelled as the `confirmed` argument of `Delete`.
- The clock reading that gives a new listing its id is modelled as the `freshId` argument of `AddNew`. Nothing is assumed about collisions, and a colliding id makes the save replace the existing listing.
- The form converts the price text to a number. That parsing is not modelled: the price is an integer supplied by the caller, and JavaScript's floating-point numbers, `NaN` included, are not modelled.
- The buffer is a partial listing in the component. The model treats it as a full `Product`, since every way of loading it fills all six fields.
- `handleInputChange` accepts any key with any string or number value. The model's `Input` pairs each key with a value of that key's kind, which is what every caller passes.
- React's batching of state updates and its stale-closure behaviour are runtime concerns. Each handler is one atomic step.
- The seed data module is not part of this model. The constructor takes an arbitrary initial array.
- The route table in `App.tsx` only wires pages to paths, and route matching happens inside the router library.
