/** The tag administration form: name validation, the choice between creating and
    updating, and the edit / cancel / reset transitions. */
module TagForm {
  import opened Models
  import opened Text
  import Tags

  /** `novaTag.nome?.trim()` is truthy: a name is present and not only white space. */
  function NameIsValid(nome: Option<string>): (ok: bool)
    ensures ok <==> nome.Some? && !Blank(nome.value)
  {
    nome.Some? && Trim(nome.value) != ""
  }

  /** JavaScript truthiness of an optional string: present and not empty. */
  predicate Truthy(id: Option<string>) {
    id.Some? && id.value != ""
  }

  /** The blank form `{ nome: '', descricao: '' }`. */
  function BlankDraft(): TagDraft {
    TagDraft(None, Some(""), Some(""), None, None)
  }

  /** `{ ...tag }`: every field of the tag, absent fields staying absent. */
  function CopyOf(tag: Tag): (d: TagDraft)
    ensures d.id == tag.id && d.descricao == tag.descricao
    ensures d.nome == Some(tag.nome) && d.dataCriacao == Some(tag.dataCriacao)
    ensures d.usageCount == Some(tag.usageCount)
  {
    TagDraft(tag.id, Some(tag.nome), tag.descricao, Some(tag.dataCriacao), Some(tag.usageCount))
  }

  datatype SaveResult = NameRequired | Updated | Created | SaveFailed
  datatype DeleteResult = NotConfirmed | Deleted | DeleteFailed

  class TagManager {
    const service: Tags.TagService
    var novaTag: TagDraft
    var isEditing: bool
    var editingId: Option<string>

    ghost predicate Valid()
      reads this, service
    {
      service.Valid()
    }

    constructor (service: Tags.TagService)
      requires service.Valid()
      ensures Valid() && this.service == service
      ensures novaTag == BlankDraft() && !isEditing && editingId == None
    {
      this.service := service;
      novaTag := BlankDraft();
      isEditing := false;
      editingId := None;
    }

    /** `salvarTag`. `now`, `newId` and `write` stand for the clock, the id the database
        assigns and whether the write resolves. */
    method SalvarTag(now: Instant, newId: string, write: Outcome) returns (res: SaveResult)
      requires Valid()
      modifies this, service
      ensures Valid()
      ensures !NameIsValid(old(novaTag.nome)) ==> res == NameRequired && unchanged(service)
      ensures NameIsValid(old(novaTag.nome)) && old(isEditing) && Truthy(old(editingId)) ==>
        && res == (if write.Done? then Updated else SaveFailed)
        && (write.Done? ==>
              && service.effects == old(service.effects)
                   + [Tags.Update(old(editingId).value, Tags.UpdateData(old(novaTag)))]
              && service.Invalidated(old(service.streams)))
      ensures NameIsValid(old(novaTag.nome)) && !(old(isEditing) && Truthy(old(editingId))) ==>
        && res == (if write.Done? then Created else SaveFailed)
        && (write.Done? ==>
              && service.effects == old(service.effects) + [Tags.Create(Tags.NewTagRecord(old(novaTag), now))]
              && service.Invalidated(old(service.streams)))
      ensures res == SaveFailed ==> unchanged(service)
      ensures res == Updated || res == Created ==>
        novaTag == BlankDraft() && !isEditing && editingId == None
      ensures res == NameRequired || res == SaveFailed ==>
        novaTag == old(novaTag) && isEditing == old(isEditing) && editingId == old(editingId)
    {
      if !NameIsValid(novaTag.nome) {
        return NameRequired;
      }
      if isEditing && Truthy(editingId) {
        var outcome := service.UpdateTag(editingId.value, novaTag, write);
        if outcome.Rejected? {
          return SaveFailed;
        }
        res := Updated;
      } else {
        var created := service.CreateTag(novaTag, now, newId, write);
        if created.Failure? {
          return SaveFailed;
        }
        res := Created;
      }
      ResetForm();
    }

    /** `editarTag`: load a copy of the tag into the form and switch to editing it. */
    method EditarTag(tag: Tag)
      modifies this
      ensures isEditing && editingId == tag.id && novaTag == CopyOf(tag)
    {
      isEditing := true;
      editingId := tag.id;
      novaTag := CopyOf(tag);
    }

    /** `deletarTag`: nothing happens unless the user confirms. */
    method DeletarTag(id: string, confirmed: bool, write: Outcome) returns (res: DeleteResult)
      requires Valid()
      modifies service
      ensures Valid()
      ensures !confirmed ==> res == NotConfirmed && unchanged(service)
      ensures confirmed ==> res == (if write.Done? then Deleted else DeleteFailed)
      ensures confirmed && write.Done? ==>
        service.effects == old(service.effects) + [Tags.Delete(id)] && service.Invalidated(old(service.streams))
      ensures confirmed && write.Rejected? ==> unchanged(service)
    {
      if !confirmed {
        return NotConfirmed;
      }
      var outcome := service.DeleteTag(id, write);
      res := if outcome.Done? then Deleted else DeleteFailed;
    }

    /** `cancelarEdicao`: the same transition as `resetForm`. */
    method CancelarEdicao()
      modifies this
      ensures novaTag == BlankDraft() && !isEditing && editingId == None
    {
      ResetForm();
    }

    method ResetForm()
      modifies this
      ensures novaTag == BlankDraft() && !isEditing && editingId == None
    {
      novaTag := BlankDraft();
      isEditing := false;
      editingId := None;
    }
  }
}
