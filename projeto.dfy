/**
 * `model.Projeto`: a project with a planned date range, a status and a
 * manager. Dates are day numbers; "today" is a parameter instead of a
 * clock read.
 */
module Projetos {
  import opened Wrappers
  import Text
  import Usuarios

  /** `Projeto.Status`. */
  datatype Status = Planejado | EmAndamento | Concluido | Cancelado

  /**
   * The project record. `gerente` is absent when the source holds a null
   * manager reference.
   */
  datatype Projeto = Projeto(
    id: Usuarios.Id,
    nome: string,
    descricao: string,
    dataInicio: int,
    dataTerminoPrevista: int,
    status: Status,
    gerente: Option<Usuarios.Usuario>)
  {
    /** The fields with no setter: they are fixed at construction. */
    predicate MesmaIdentidade(other: Projeto) {
      id == other.id && dataInicio == other.dataInicio
    }

    /** `setNome`: only the name changes. */
    function SetNome(nome: string): (p: Projeto)
      ensures p.MesmaIdentidade(this) && p.nome == nome
      ensures p.descricao == descricao && p.dataTerminoPrevista == dataTerminoPrevista
      ensures p.status == status && p.gerente == gerente
    {
      this.(nome := nome)
    }

    /** `setDescricao`: only the description changes. */
    function SetDescricao(descricao: string): (p: Projeto)
      ensures p.MesmaIdentidade(this) && p.descricao == descricao
      ensures p.nome == nome && p.dataTerminoPrevista == dataTerminoPrevista
      ensures p.status == status && p.gerente == gerente
    {
      this.(descricao := descricao)
    }

    /** `setDataTerminoPrevista`: only the expected end date changes. */
    function SetDataTerminoPrevista(termino: int): (p: Projeto)
      ensures p.MesmaIdentidade(this) && p.dataTerminoPrevista == termino
      ensures p.nome == nome && p.descricao == descricao
      ensures p.status == status && p.gerente == gerente
    {
      this.(dataTerminoPrevista := termino)
    }

    /**
     * `setStatus`: only the status changes. Any status may follow any other;
     * completing a project clears its lateness.
     */
    function SetStatus(status: Status): (p: Projeto)
      ensures p.MesmaIdentidade(this) && p.status == status
      ensures p.nome == nome && p.descricao == descricao
      ensures p.dataTerminoPrevista == dataTerminoPrevista && p.gerente == gerente
      ensures status == Concluido ==> forall hoje :: !p.EstaAtrasado(hoje)
    {
      this.(status := status)
    }

    /** `setGerente`: only the manager changes. */
    function SetGerente(gerente: Option<Usuarios.Usuario>): (p: Projeto)
      ensures p.MesmaIdentidade(this) && p.gerente == gerente
      ensures p.nome == nome && p.descricao == descricao
      ensures p.dataTerminoPrevista == dataTerminoPrevista && p.status == status
    {
      this.(gerente := gerente)
    }

    /**
     * `estaAtrasado`, with the current date `hoje` as a parameter: a project
     * that is not completed is late once more days than its planned
     * duration have passed since its start.
     */
    function EstaAtrasado(hoje: int): (b: bool)
      ensures b ==> status != Concluido
      ensures b <==> status != Concluido && dataInicio + DuracaoPrevista() < hoje
    {
      status != Concluido && hoje > dataTerminoPrevista
    }

    /** `duracaoPrevista`: the number of days from the start to the expected end. */
    function DuracaoPrevista(): (d: int)
      ensures dataInicio + d == dataTerminoPrevista
      ensures dataInicio <= dataTerminoPrevista <==> d >= 0
    {
      dataTerminoPrevista - dataInicio
    }
  }

  /** The constructor: every argument stored unchanged, status `PLANEJADO`. */
  function NovoProjeto(id: Usuarios.Id, nome: string, descricao: string, inicio: int, termino: int,
                       gerente: Option<Usuarios.Usuario>): (p: Projeto)
    ensures p.status == Planejado
    ensures p.id == id && p.nome == nome && p.descricao == descricao
    ensures p.dataInicio == inicio && p.dataTerminoPrevista == termino && p.gerente == gerente
    ensures forall hoje :: p.EstaAtrasado(hoje) <==> hoje > termino
  {
    Projeto(id, nome, descricao, inicio, termino, Planejado, gerente)
  }

  /**
   * Lateness depends only on the status and the expected end date: a project
   * that is not completed is late exactly from the day after its expected end.
   */
  lemma AtrasoPorStatus(p: Projeto, hoje: int)
    ensures p.status == Concluido ==> !p.EstaAtrasado(hoje)
    ensures p.status != Concluido ==> (p.EstaAtrasado(hoje) <==> hoje > p.dataTerminoPrevista)
    ensures p.EstaAtrasado(hoje) ==> forall depois :: depois >= hoje ==> p.EstaAtrasado(depois)
  {
  }

  /**
   * A new project that ends on day `termino` is not late up to that day, is
   * late on the next day, and stops being late once it is completed.
   */
  lemma CicloDeAtraso(id: Usuarios.Id, nome: string, descricao: string, inicio: int, termino: int,
                      gerente: Usuarios.Usuario)
    ensures var p := NovoProjeto(id, nome, descricao, inicio, termino, Some(gerente));
      && !p.EstaAtrasado(termino)
      && p.EstaAtrasado(termino + 1)
      && !p.SetStatus(Concluido).EstaAtrasado(termino + 1)
  {
  }

  // Lookup keys, as the predicates the repository's streams filter by.

  function IdOf(p: Projeto): Usuarios.Id { p.id }

  /** The name up to case: two names are equal ignoring case exactly when their keys are equal. */
  function NomeChave(p: Projeto): string { Text.FoldCase(p.nome) }

  function WithId(id: Usuarios.Id): Projeto -> bool {
    (p: Projeto) => p.id == id
  }

  function NamedLike(nome: string): Projeto -> bool {
    (p: Projeto) => Text.EqualsIgnoreCase(p.nome, nome)
  }

  function WithStatus(status: Status): Projeto -> bool {
    (p: Projeto) => p.status == status
  }

  function ManagedBy(gerente: Usuarios.Usuario): Projeto -> bool {
    (p: Projeto) => p.gerente.Some? && p.gerente.value.id == gerente.id
  }

  function WithinDates(inicio: int, fim: int): Projeto -> bool {
    (p: Projeto) => p.dataInicio >= inicio && p.dataTerminoPrevista <= fim
  }

  function LateOn(hoje: int): Projeto -> bool {
    (p: Projeto) => p.EstaAtrasado(hoje)
  }
}
