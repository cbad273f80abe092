/** The state of the admin screen and its handlers. Each handler is one atomic
    step on three fields: the listing array, whether the edit/add modal is open,
    and the edit buffer. */
module Admin {

  import opened Wrappers
  import opened Listings

  /** The two headings the modal can show. */
  datatype Title = EditTitle | AddTitle

  class AdminState {
    var products: seq<Product>
    var isModalOpen: bool
    var editing: Option<Product>

    /** The screen as it first renders: the seed listings, the modal closed and
        no buffer. */
    constructor (initial: seq<Product>)
      ensures products == initial
      ensures !isModalOpen && editing == None
    {
      products := initial;
      isModalOpen := false;
      editing := None;
    }

    /** The modal's heading, or None when the modal is not shown: it is shown
        only while it is open and there is a buffer, and it reads "edit" exactly
        when the buffer's id is nonzero and present in the array. */
    function Heading(): (t: Option<Title>)
      reads this
      ensures t.Some? <==> isModalOpen && editing.Some?
      ensures t == Some(EditTitle) <==>
        isModalOpen && editing.Some? && editing.value.id != 0 && HasId(products, editing.value.id)
    {
      if isModalOpen && editing.Some? then
        Some(if IsEditMode(editing.value, products) then EditTitle else AddTitle)
      else None
    }

    /** `handleDelete`: with the operator's confirmation, drop every listing
        carrying `id`; without it, change nothing. */
    method Delete(id: int, confirmed: bool)
      modifies this
      ensures products == if confirmed then FilterOut(old(products), id) else old(products)
      ensures !HasId(old(products), id) ==> products == old(products)
      ensures confirmed ==> !HasId(products, id)
      ensures DistinctIds(old(products)) ==> DistinctIds(products)
      ensures isModalOpen == old(isModalOpen) && editing == old(editing)
    {
      if confirmed {
        if DistinctIds(products) {
          FilterOutKeepsDistinct(products, id);
        }
        products := FilterOut(products, id);
      }
    }

    /** `handleEdit`: load a copy of `p` into the buffer and open the modal. */
    method Edit(p: Product)
      modifies this
      ensures editing == Some(p) && isModalOpen
      ensures products == old(products)
    {
      editing := Some(p);
      isModalOpen := true;
    }

    /** `handleAddNew`: load a blank listing with the caller's fresh id (the
        clock in the component) into the buffer and open the modal. */
    method AddNew(freshId: int)
      modifies this
      ensures editing == Some(Product(freshId, "", 0, "", PlaceholderImage, ""))
      ensures isModalOpen
      ensures products == old(products)
    {
      editing := Some(Product(freshId, "", 0, "", PlaceholderImage, ""));
      isModalOpen := true;
    }

    /** `handleSave`: with no buffer, nothing happens. Otherwise the buffer
        replaces the first listing with its id, or goes to the front when no
        listing has it; then the modal closes and the buffer is cleared. */
    method Save()
      modifies this
      ensures old(editing).None? ==>
        products == old(products) && isModalOpen == old(isModalOpen) && editing == None
      ensures old(editing).Some? ==>
        products == Upsert(old(products), old(editing).value) && !isModalOpen && editing == None
      ensures DistinctIds(old(products)) ==> DistinctIds(products)
    {
      if editing.None? {
        return;
      }
      var p := editing.value;
      if DistinctIds(products) {
        UpsertKeepsDistinct(products, p);
      }
      var existingIndex := FindIndex(products, p.id);
      if existingIndex >= 0 {
        products := products[existingIndex := p];
      } else {
        products := [p] + products;
      }
      isModalOpen := false;
      editing := None;
    }

    /** `handleInputChange`: write one key of the buffer; an empty buffer
        stays empty, and the array is never touched. */
    method InputChange(u: Input)
      modifies this
      ensures editing == if old(editing).Some? then Some(ApplyInput(old(editing).value, u)) else None
      ensures products == old(products) && isModalOpen == old(isModalOpen)
    {
      if editing.Some? {
        editing := Some(ApplyInput(editing.value, u));
      }
    }

    /** The backdrop and the close button: close the modal and keep the buffer. */
    method CloseModal()
      modifies this
      ensures !isModalOpen
      ensures editing == old(editing) && products == old(products)
    {
      isModalOpen := false;
    }
  }

}
