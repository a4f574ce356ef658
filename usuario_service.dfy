/**
 * `service.UsuarioService`: field validation and duplicate checks in front
 * of a `UsuarioRepository`. A failed check is reported as a `Failure`
 * instead of an `IllegalArgumentException`, and leaves the store as it was.
 */
module ServicoUsuarios {
  import opened Wrappers
  import Lists
  import Text
  import opened Usuarios
  import opened RepositorioUsuarios

  /** Least length of the trimmed full name. */
  const MinNome: nat := 3
  /** Least length of the login, which is not trimmed. */
  const MinLogin: nat := 4
  /** Least length of the password, which is not trimmed. */
  const MinSenha: nat := 6

  /** The conditions `validarDadosUsuario` accepts, one per field. */
  predicate DadosValidos(u: Usuario) {
    |Text.Trim(u.nomeCompleto)| >= MinNome && CpfValido(u.cpf) && Text.IsEmail(u.email)
    && |u.login| >= MinLogin && |u.senha| >= MinSenha
  }

  /**
   * `validarDadosUsuario` with `validarCPF`, `validarEmail`, `validarLogin`
   * and `validarSenha`: the first failing field check, in the order name,
   * CPF, e-mail, login, password; nothing when every field passes.
   */
  function ValidarDadosUsuario(u: Usuario): (r: Option<Failure>)
    ensures r.None? <==> DadosValidos(u)
    ensures r == Some(Validation(NameTooShort)) <==> |Text.Trim(u.nomeCompleto)| < MinNome
    ensures r == Some(Validation(CpfMalformed)) <==>
      |Text.Trim(u.nomeCompleto)| >= MinNome && !CpfValido(u.cpf)
    ensures r == Some(Validation(EmailMalformed)) <==>
      |Text.Trim(u.nomeCompleto)| >= MinNome && CpfValido(u.cpf) && !Text.IsEmail(u.email)
    ensures r == Some(Validation(LoginTooShort)) <==>
      |Text.Trim(u.nomeCompleto)| >= MinNome && CpfValido(u.cpf) && Text.IsEmail(u.email) && |u.login| < MinLogin
    ensures r == Some(Validation(PasswordTooShort)) <==>
      |Text.Trim(u.nomeCompleto)| >= MinNome && CpfValido(u.cpf) && Text.IsEmail(u.email)
      && |u.login| >= MinLogin && |u.senha| < MinSenha
  {
    if |Text.Trim(u.nomeCompleto)| < MinNome then Some(Validation(NameTooShort))
    else if !CpfValido(u.cpf) then Some(Validation(CpfMalformed))
    else if !Text.IsEmail(u.email) then Some(Validation(EmailMalformed))
    else if |u.login| < MinLogin then Some(Validation(LoginTooShort))
    else if |u.senha| < MinSenha then Some(Validation(PasswordTooShort))
    else None
  }

  /**
   * What an accepted user looks like: a full name with at least three
   * characters between non-blank ends, eleven CPF digits, an e-mail address
   * of the pattern with exactly one '@'.
   */
  lemma DadosAceitos(u: Usuario)
    requires ValidarDadosUsuario(u).None?
    ensures var nome := Text.Trim(u.nomeCompleto);
      |nome| >= MinNome && !Text.IsBlank(nome[0]) && !Text.IsBlank(nome[|nome| - 1])
    ensures Lists.Count(u.cpf, Text.IsDigit) == 11
    ensures Text.MatchesEmailPattern(u.email) && Lists.Count(u.email, Text.IsAt) == 1
  {
    CpfValidoCountsDigits(u.cpf);
    Text.IsEmailMatchesPattern(u.email);
    Text.IsEmailHasOneAt(u.email);
  }

  /** A full name made only of blanks is always refused. */
  lemma NomeEmBrancoRecusado(u: Usuario)
    requires forall k :: 0 <= k < |u.nomeCompleto| ==> Text.IsBlank(u.nomeCompleto[k])
    ensures ValidarDadosUsuario(u) == Some(Validation(NameTooShort))
  {
    Text.TrimAllBlank(u.nomeCompleto);
  }

  /**
   * The duplicate check compares CPF strings as typed: a CPF stored in its
   * punctuated form does not block the same number typed bare, though both
   * pass validation and have the same digits.
   */
  lemma CpfEmOutroFormatoNaoConflita(a: Usuario, b: Usuario)
    requires |b.cpf| == 11 && Text.AllChars(b.cpf, Text.IsDigit) && a.cpf == Pontuado(b.cpf)
    ensures CpfValido(a.cpf) && CpfValido(b.cpf)
    ensures Text.Digits(a.cpf) == Text.Digits(b.cpf)
    ensures !Lists.AnyMatch([a], WithCpf(b.cpf))
  {
    CpfFormatosDistintos(b.cpf);
    SoDigitos(b.cpf, 0, 11);
    assert b.cpf[0..11] == b.cpf;
    assert [a][0] == a;
  }

  class UsuarioService {
    const repo: UsuarioRepository

    /** No two stored users share a login. */
    ghost predicate LoginsDistintos()
      reads repo
    {
      Lists.Unique(repo.usuarios, LoginOf)
    }

    /** A new service owns a new, empty repository. */
    constructor()
      ensures fresh(repo) && repo.usuarios == []
      ensures repo.CpfsDistintos() && LoginsDistintos()
    {
      repo := new UsuarioRepository();
    }

    /**
     * `cadastrarUsuario`: validation, then the CPF and login duplicate
     * checks, then `adicionar`. A registration that passes every check adds
     * exactly that user; any failure leaves the store unchanged. Through
     * this operation CPFs and logins both stay distinct.
     */
    method CadastrarUsuario(u: Usuario) returns (r: Result<bool>)
      modifies repo
      ensures ValidarDadosUsuario(u).Some? ==> r == Err(ValidarDadosUsuario(u).value)
      ensures r == Err(Conflict(CpfTaken)) <==>
        DadosValidos(u) && Lists.AnyMatch(old(repo.usuarios), WithCpf(u.cpf))
      ensures r == Err(Conflict(LoginTaken)) <==>
        DadosValidos(u) && !Lists.AnyMatch(old(repo.usuarios), WithCpf(u.cpf))
        && Lists.AnyMatch(old(repo.usuarios), WithLogin(u.login))
      ensures r.Ok? <==>
        DadosValidos(u) && !Lists.AnyMatch(old(repo.usuarios), WithCpf(u.cpf))
        && !Lists.AnyMatch(old(repo.usuarios), WithLogin(u.login))
      ensures r.Ok? ==> r.value && repo.usuarios == old(repo.usuarios) + [u]
      ensures r.Err? ==> repo.usuarios == old(repo.usuarios)
      ensures old(repo.CpfsDistintos()) ==> repo.CpfsDistintos()
      ensures old(LoginsDistintos()) ==> LoginsDistintos()
    {
      var invalido := ValidarDadosUsuario(u);
      if invalido.Some? {
        return Err(invalido.value);
      }
      if repo.BuscarPorCpf(u.cpf).Some? {
        return Err(Conflict(CpfTaken));
      }
      if repo.BuscarPorLogin(u.login).Some? {
        return Err(Conflict(LoginTaken));
      }
      if LoginsDistintos() {
        Lists.AppendKeepsUnique(repo.usuarios, u, LoginOf);
      }
      var ok := repo.Adicionar(u);
      return Ok(ok);
    }

    /** `autenticar`: the repository's first user with that login and password. */
    function Autenticar(login: string, senha: string): (r: Option<Usuario>)
      reads repo
      ensures Lists.IsFirst(repo.usuarios, WithCredenciais(login, senha), r)
      ensures r.Some? ==> r.value in repo.usuarios && r.value.login == login && r.value.VerificarSenha(senha)
    {
      repo.Autenticar(login, senha)
    }

    /**
     * `atualizarUsuario`: the same validation as registration, then
     * `atualizar`. Uniqueness is not checked again; it survives when the
     * replacement keeps the stored user's CPF and login, as every user
     * derived from the stored one by setter calls does.
     */
    method AtualizarUsuario(u: Usuario) returns (r: Result<bool>)
      modifies repo
      ensures ValidarDadosUsuario(u).Some? ==> r == Err(ValidarDadosUsuario(u).value)
      ensures r.Err? ==> repo.usuarios == old(repo.usuarios)
      ensures r.Ok? <==> DadosValidos(u)
      ensures r.Ok? ==> (r.value <==> Lists.AnyMatch(old(repo.usuarios), WithId(u.id)))
      ensures r.Ok? ==> repo.usuarios == Lists.ReplaceFirst(old(repo.usuarios), WithId(u.id), u)
      ensures var i := Lists.FirstIndex(old(repo.usuarios), WithId(u.id));
        (i < |old(repo.usuarios)| ==> old(repo.usuarios)[i].MesmaIdentidade(u)) ==>
        (old(repo.CpfsDistintos()) ==> repo.CpfsDistintos())
        && (old(LoginsDistintos()) ==> LoginsDistintos())
    {
      var invalido := ValidarDadosUsuario(u);
      if invalido.Some? {
        return Err(invalido.value);
      }
      var p := WithId(u.id);
      if Lists.AnyMatch(repo.usuarios, p) ==> repo.usuarios[Lists.FirstIndex(repo.usuarios, p)].MesmaIdentidade(u) {
        if repo.CpfsDistintos() {
          Lists.ReplaceFirstKeepsUnique(repo.usuarios, p, u, CpfOf);
        }
        if LoginsDistintos() {
          Lists.ReplaceFirstKeepsUnique(repo.usuarios, p, u, LoginOf);
        }
      }
      var ok := repo.Atualizar(u);
      return Ok(ok);
    }

    /** `removerUsuario`: every user with exactly that CPF string is removed. */
    method RemoverUsuario(cpf: string) returns (ok: bool)
      modifies repo
      ensures repo.usuarios == Lists.RemoveAll(old(repo.usuarios), WithCpf(cpf))
      ensures ok <==> Lists.AnyMatch(old(repo.usuarios), WithCpf(cpf))
      ensures !Lists.AnyMatch(repo.usuarios, WithCpf(cpf))
      ensures old(repo.CpfsDistintos()) ==> repo.CpfsDistintos()
      ensures old(LoginsDistintos()) ==> LoginsDistintos()
    {
      if LoginsDistintos() {
        Lists.FilterKeepsUnique(repo.usuarios, Lists.Not(WithCpf(cpf)), LoginOf);
      }
      ok := repo.Remover(cpf);
    }
  }

  /**
   * A user derived from the stored one by setter calls keeps its CPF and
   * login, so updating with it keeps both keys distinct.
   */
  lemma AtualizacaoPorSetters(s: seq<Usuario>, i: nat, alteracoes: seq<Alteracao>)
    requires i < |s| && Lists.Unique(s, IdOf)
    ensures var u := AplicarTodas(s[i], alteracoes);
      Lists.FirstIndex(s, WithId(u.id)) == i && s[i].MesmaIdentidade(u)
  {
    var u := AplicarTodas(s[i], alteracoes);
    AlteracoesPreservamIdentidade(s[i], alteracoes);
    Lists.UniqueFirstIndex(s, i, WithId(u.id), IdOf);
  }
}
