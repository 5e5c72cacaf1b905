/** The task form (src/components/TaskModal.jsx): three local fields filled
    from the task being edited when the modal opens, `close`, and `save`, which
    refuses a blank title and otherwise sends an update or a create before
    closing. */
module TaskModal {
  import opened Domain
  import opened Text
  import opened TaskStore

  /** The form's three fields. */
  datatype Form = Form(title: string, description: string, column: Column)

  /** The fields the modal shows on opening: those of the task being edited, or
      an empty title and description in the backlog column for a new task. */
  function FormFields(editing: Option<Task>): (f: Form)
    ensures editing.Some? ==> f == Form(editing.value.title, editing.value.description, editing.value.column)
    ensures editing.None? ==> f == Form([], [], Backlog)
  {
    match editing
    case Some(t) => Form(t.title, t.description, t.column)
    case None => Form([], [], Backlog)
  }

  /** The request `save` sends: none for a title that is empty once trimmed, an
      update of all three fields of the edited task, or a create. The title is
      sent as typed, untrimmed. */
  function SaveRequest(title: string, description: string, column: Column, editing: Option<Task>): (r: Option<Request>)
    ensures r.None? <==> IsBlank(title)
    ensures r.Some? && editing.Some? ==> r.value == Update(editing.value.id, Fields(title, description, column))
    ensures r.Some? && editing.None? ==> r.value == Create(title, description, column)
  {
    TrimEmptyIffBlank(title);
    if Trim(title) == [] then None
    else match editing
      case Some(t) => Some(Update(t.id, Fields(title, description, column)))
      case None => Some(Create(title, description, column))
  }

  /** Saving a task opened for editing without touching its fields sends back
      exactly its own title, description and column, provided its title is not
      blank. */
  lemma SaveUntouchedEdit(t: Task)
    requires !IsBlank(t.title)
    ensures var f := FormFields(Some(t));
            SaveRequest(f.title, f.description, f.column, Some(t)) == Some(Update(t.id, Fields(t.title, t.description, t.column)))
  {
  }

  /** The empty form of a new task cannot be saved as it is. */
  lemma SaveFreshFormRejected()
    ensures var f := FormFields(None);
            SaveRequest(f.title, f.description, f.column, None) == None
  {
  }

  /** How `save` ended: refused with the alert, stopped by a failed request, or
      saved and closed. */
  datatype SaveOutcome = Rejected | Failed | Saved

  class Modal {
    const store: Store
    var title: string
    var description: string
    var column: Column
    /** Every request sent so far, oldest first. */
    var requests: seq<Request>

    constructor (store: Store)
      ensures this.store == store
      ensures title == [] && description == [] && column == Backlog
      ensures requests == []
    {
      this.store := store;
      title := [];
      description := [];
      column := Backlog;
      requests := [];
    }

    /** The effect run when `editingTask` or `modalOpen` changes: an open modal
        takes its fields from the task being edited; a closed one keeps them. */
    method OnOpenOrEditingChange()
      modifies this
      ensures store.modalOpen ==> Form(title, description, column) == FormFields(store.editingTask)
      ensures !store.modalOpen ==> title == old(title) && description == old(description) && column == old(column)
      ensures requests == old(requests)
    {
      if store.modalOpen {
        var f := FormFields(store.editingTask);
        title := f.title;
        description := f.description;
        column := f.column;
      }
    }

    method SetTitle(t: string)
      modifies this
      ensures title == t && description == old(description) && column == old(column) && requests == old(requests)
    {
      title := t;
    }

    method SetDescription(d: string)
      modifies this
      ensures description == d && title == old(title) && column == old(column) && requests == old(requests)
    {
      description := d;
    }

    method SetColumn(c: Column)
      modifies this
      ensures column == c && title == old(title) && description == old(description) && requests == old(requests)
    {
      column := c;
    }

    /** `close`: the modal closes and no task is being edited any more. */
    method Close()
      modifies store
      ensures !store.modalOpen && store.editingTask == None
      ensures store.tasks == old(store.tasks) && store.searchTerm == old(store.searchTerm)
      ensures store.loadedItems == old(store.loadedItems) && store.taskOrder == old(store.taskOrder)
    {
      store.SetModalOpen(false);
      store.SetEditingTask(None);
    }

    /** The part of `save` after the title check: the request is sent; when it
        succeeds the task list is refetched and the modal closes, when it fails
        the handler stops there. */
    method Send(request: Request, succeeds: bool) returns (outcome: SaveOutcome)
      modifies this, store
      ensures outcome == (if succeeds then Saved else Failed)
      ensures requests == old(requests) + [request] + (if succeeds then [InvalidateTasks] else [])
      ensures succeeds ==> !store.modalOpen && store.editingTask == None
      ensures !succeeds ==> store.modalOpen == old(store.modalOpen) && store.editingTask == old(store.editingTask)
      ensures title == old(title) && description == old(description) && column == old(column)
      ensures store.tasks == old(store.tasks) && store.searchTerm == old(store.searchTerm)
      ensures store.loadedItems == old(store.loadedItems) && store.taskOrder == old(store.taskOrder)
    {
      requests := requests + [request];
      if !succeeds {
        return Failed;
      }
      requests := requests + [InvalidateTasks];
      Close();
      return Saved;
    }

    /** `save`. A blank title is refused and nothing else happens. Otherwise the
        update or create is sent; when it succeeds the task list is refetched
        and the modal closes, when it fails the handler stops there and the
        modal stays open. */
    method Save(succeeds: bool) returns (outcome: SaveOutcome)
      modifies this, store
      ensures outcome == Rejected <==> IsBlank(title)
      ensures outcome == Saved <==> !IsBlank(title) && succeeds
      ensures outcome == Rejected ==> requests == old(requests)
      ensures outcome != Rejected ==>
                requests == old(requests) + [SaveRequest(title, description, column, old(store.editingTask)).value]
                                          + (if succeeds then [InvalidateTasks] else [])
      ensures outcome == Saved ==> !store.modalOpen && store.editingTask == None
      ensures outcome != Saved ==> store.modalOpen == old(store.modalOpen) && store.editingTask == old(store.editingTask)
      ensures title == old(title) && description == old(description) && column == old(column)
      ensures store.tasks == old(store.tasks) && store.searchTerm == old(store.searchTerm)
      ensures store.loadedItems == old(store.loadedItems) && store.taskOrder == old(store.taskOrder)
    {
      var request := SaveRequest(title, description, column, store.editingTask);
      if request.None? {
        return Rejected;
      }
      outcome := Send(request.value, succeeds);
    }
  }
}
