/** The `App` component's state and its event handlers: each handler is one
    atomic transition of the two state variables, the task list and the form. */
module AppComponent {
  import opened TaskList

  class App {
    /** The scheduled tasks, oldest first. */
    var tasks: seq<Task>
    /** The values currently typed into the form. */
    var formData: Form

    /** Ids in the list are pairwise distinct. */
    ghost predicate Valid()
      reads this
    {
      UniqueIds(tasks)
    }

    /** A fresh page: no tasks, all four fields empty. */
    constructor ()
      ensures Valid()
      ensures tasks == [] && formData == EmptyForm
    {
      tasks := [];
      formData := EmptyForm;
    }

    /** Typing into the equipment field replaces that field only. */
    method EditEquipment(value: string)
      requires Valid()
      modifies this
      ensures Valid()
      ensures formData.equipment == value
      ensures formData.hours == old(formData.hours)
      ensures formData.description == old(formData.description)
      ensures formData.date == old(formData.date)
      ensures tasks == old(tasks)
    {
      formData := formData.(equipment := value);
    }

    /** Typing into the hours field replaces that field only. */
    method EditHours(value: string)
      requires Valid()
      modifies this
      ensures Valid()
      ensures formData.hours == value
      ensures formData.equipment == old(formData.equipment)
      ensures formData.description == old(formData.description)
      ensures formData.date == old(formData.date)
      ensures tasks == old(tasks)
    {
      formData := formData.(hours := value);
    }

    /** Typing into the description field replaces that field only. */
    method EditDescription(value: string)
      requires Valid()
      modifies this
      ensures Valid()
      ensures formData.description == value
      ensures formData.equipment == old(formData.equipment)
      ensures formData.hours == old(formData.hours)
      ensures formData.date == old(formData.date)
      ensures tasks == old(tasks)
    {
      formData := formData.(description := value);
    }

    /** Picking a date replaces the date field only. */
    method EditDate(value: string)
      requires Valid()
      modifies this
      ensures Valid()
      ensures formData.date == value
      ensures formData.equipment == old(formData.equipment)
      ensures formData.hours == old(formData.hours)
      ensures formData.description == old(formData.description)
      ensures tasks == old(tasks)
    {
      formData := formData.(date := value);
    }

    /** Submitting the form appends one task built from it, under the id
        `freshId` the random-token generator supplied, and clears the form.
        Every earlier task stays where it was, and ids stay distinct. */
    method Submit(freshId: string)
      requires Valid()
      requires freshId !in Ids(tasks)
      modifies this
      ensures Valid()
      ensures |tasks| == |old(tasks)| + 1
      ensures tasks[..|old(tasks)|] == old(tasks)
      ensures tasks[|tasks| - 1] ==
        Task(freshId, old(formData.equipment), Number(old(formData.hours)),
             old(formData.description), old(formData.date))
      ensures Ids(tasks) == old(Ids(tasks)) + {freshId}
      ensures formData == EmptyForm
    {
      var newTask := Task(freshId, formData.equipment, Number(formData.hours),
                          formData.description, formData.date);
      AppendUniqueIds(tasks, newTask);
      tasks := tasks + [newTask];
      formData := EmptyForm;
    }

    /** Deleting drops every task carrying `id` and keeps the others in order;
        the form is untouched. */
    method Delete(id: string)
      requires Valid()
      modifies this
      ensures Valid()
      ensures tasks == RemoveId(old(tasks), id)
      ensures Ids(tasks) == old(Ids(tasks)) - {id}
      ensures id in old(Ids(tasks)) ==> |tasks| == |old(tasks)| - 1
      ensures id !in old(Ids(tasks)) ==> tasks == old(tasks)
      ensures formData == old(formData)
    {
      RemoveIdPreservesUniqueIds(tasks, id);
      RemoveIdUnchangedIff(tasks, id);
      if id in Ids(tasks) {
        var i :| 0 <= i < |tasks| && tasks[i].id == id;
        RemoveIdUnique(tasks, id, i);
      }
      tasks := RemoveId(tasks, id);
    }
  }

  /** Filling in and submitting one form on a fresh page gives a one-task list
      holding the typed values verbatim, and an empty form. */
  method SubmitOnFreshPage(form: Form, freshId: string) returns (tasks: seq<Task>, formData: Form)
    ensures tasks == [Task(freshId, form.equipment, Number(form.hours), form.description, form.date)]
    ensures formData == EmptyForm
  {
    var app := new App();
    app.EditEquipment(form.equipment);
    app.EditHours(form.hours);
    app.EditDescription(form.description);
    app.EditDate(form.date);
    app.Submit(freshId);
    tasks, formData := app.tasks, app.formData;
  }

  /** Submitting two forms and then deleting the first task by its id leaves
      exactly the second task, unchanged. */
  method SubmitTwoDeleteFirst(first: Form, second: Form, id1: string, id2: string)
    returns (tasks: seq<Task>)
    requires id1 != id2
    ensures tasks == [Task(id2, second.equipment, Number(second.hours), second.description, second.date)]
  {
    var app := new App();
    app.EditEquipment(first.equipment);
    app.EditHours(first.hours);
    app.EditDescription(first.description);
    app.EditDate(first.date);
    app.Submit(id1);
    app.EditEquipment(second.equipment);
    app.EditHours(second.hours);
    app.EditDescription(second.description);
    app.EditDate(second.date);
    app.Submit(id2);
    app.Delete(id1);
    tasks := app.tasks;
  }
}
